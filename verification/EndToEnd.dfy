/**
 From the simulator to the export: sendAll (apps/satellite_simulator/SimulatorSocket.cpp), the TCP
 byte stream, framing, decoding and the pipeline.
 */
module EndToEnd {
  import opened Bytes
  import opened FrameCodec
  import opened OrderedWriter
  import opened StreamFraming
  import opened StreamParsing
  import Pipeline
  import PipelineInvariant
  import PipelineTheorems
  import Replay
  import TcpServer

  // ---------------------------------------------------------------- sendAll

  /** What one call to send() does: EINTR, another error, or some bytes taken (0 when it takes none). */
  datatype SendResult = SendInterrupted | SendError | Taken(count: nat)

  /** `Waiting` stands for a call to send() that has not returned. */
  datatype SendOutcome = Sent | Failed | Waiting

  lemma {:induction false} ConcatAppend(xs: seq<seq<byte>>, x: seq<byte>)
    ensures Concat(xs + [x]) == Concat(xs) + x
  {
    if xs == [] {
      assert xs + [x] == [x];
      assert Concat([x]) == x + Concat([x][1..]);
    } else {
      ConcatAppend(xs[1..], x);
      assert (xs + [x])[1..] == xs[1..] + [x];
    }
  }

  /** How many bytes a series of calls would take altogether. */
  function Capacity(script: seq<SendResult>): nat {
    if script == [] then 0
    else
      var last := script[|script| - 1];
      Capacity(script[..|script| - 1]) + (if last.Taken? then last.count else 0)
  }

  /** `pieces` are the bytes the network took, call by call; a socket cannot take more than it is given. */
  method SendAll(bytes: seq<byte>, script: seq<SendResult>) returns (o: SendOutcome, pieces: seq<seq<byte>>, calls: nat)
    ensures Concat(pieces) <= bytes
    ensures o == Sent <==> Concat(pieces) == bytes
    ensures calls <= |script|
    ensures |Concat(pieces)| == if |bytes| <= Capacity(script[..calls]) then |bytes| else Capacity(script[..calls])
    ensures o == Waiting ==> calls == |script|
    ensures o == Failed ==> calls > 0 && (script[calls - 1] == SendError || script[calls - 1] == Taken(0))
    ensures forall i :: 0 <= i < calls ==>
                          script[i] == SendError || script[i] == Taken(0) ==> o == Failed && i == calls - 1
  {
    var sent := 0;
    pieces, calls := [], 0;
    while sent < |bytes|
      invariant 0 <= sent <= |bytes| && Concat(pieces) == bytes[..sent]
      invariant calls <= |script|
      invariant sent == if |bytes| <= Capacity(script[..calls]) then |bytes| else Capacity(script[..calls])
      invariant forall i :: 0 <= i < calls ==> script[i] != SendError && script[i] != Taken(0)
      decreases |script| - calls
    {
      if calls == |script| {
        return Waiting, pieces, calls;
      }
      var result := script[calls];
      assert script[..calls + 1][..calls] == script[..calls];
      calls := calls + 1;
      if result == SendInterrupted {
        continue;
      }
      if result == SendError || result.count == 0 {
        return Failed, pieces, calls;
      }
      var count := if result.count <= |bytes| - sent then result.count else |bytes| - sent;
      ConcatAppend(pieces, bytes[sent..sent + count]);
      pieces := pieces + [bytes[sent..sent + count]];
      assert bytes[..sent] + bytes[sent..sent + count] == bytes[..sent + count];
      sent := sent + count;
    }
    o := Sent;
  }

  // ---------------------------------------------------------------- A stream of encoded frames

  predicate AllEncodable(frames: seq<TelemetryFrame>) {
    forall f :: f in frames ==> Encodable(f)
  }

  function Wires(frames: seq<TelemetryFrame>): (w: seq<seq<byte>>)
    requires AllEncodable(frames)
    ensures |w| == |frames|
    ensures forall i :: 0 <= i < |frames| ==> frames[i] in frames && w[i] == Wire(frames[i])
    ensures Replay.AllInBounds(w)
  {
    seq(|frames|, i requires 0 <= i < |frames| => assert frames[i] in frames; Wire(frames[i]))
  }

  function Decoded(b: seq<seq<byte>>): (rs: seq<ParseResult>)
    ensures |rs| == |b|
  {
    seq(|b|, i requires 0 <= i < |b| => DecodeFrame(b[i]))
  }

  /** An incomplete frame stays in the buffer. */
  lemma PartialFrame(f: seq<byte>, p: seq<byte>)
    requires WellFramed(f) && p <= f && |p| < |f|
    ensures Extract(p) == Extraction([], p)
  {
    hide PayloadLength;
    if |p| < 4 {
      assert Search(p, 0) == |p|;
    } else {
      assert f[..|p|] == p;
      assert MagicAt(p, 0);
      AtMagic(p);
      if |p| >= HEADER_SIZE {
        PayloadLengthOfPrefix(f, |p|);
      }
    }
  }

  /** At any moment, the frames out are those whose last byte has arrived; the rest waits in the buffer. */
  lemma {:induction false} PrefixRecovery(frames: seq<seq<byte>>, p: seq<byte>) returns (k: nat)
    requires forall i :: 0 <= i < |frames| ==> WellFramed(frames[i])
    requires p <= Concat(frames)
    ensures k <= |frames| && Extract(p).frames == frames[..k]
    ensures Concat(frames[..k]) + Extract(p).rest == p
    ensures k < |frames| ==> |Extract(p).rest| < |frames[k]|
    decreases |frames|
  {
    hide WellFramed, Extract;
    if frames == [] {
      EmptyIsSettled();
      return 0;
    }
    var f := frames[0];
    if |p| < |f| {
      assert p <= f by {
        assert p == Concat(frames)[..|p|] && f == Concat(frames)[..|f|];
      }
      PartialFrame(f, p);
      return 0;
    }
    assert p[..|f|] == Concat(frames)[..|f|] == f;
    assert p == f + p[|f|..];
    assert p[|f|..] <= Concat(frames[1..]) by {
      assert p == Concat(frames)[..|p|];
      assert Concat(frames)[|f|..] == Concat(frames[1..]);
    }
    var j := PrefixRecovery(frames[1..], p[|f|..]);
    FrameInFront(f, p[|f|..]);
    k := j + 1;
    assert frames[..k] == [f] + frames[1..][..j];
    assert frames[..k][1..] == frames[1..][..j];
  }

  lemma WiresAreWellFramed(frames: seq<TelemetryFrame>)
    requires AllEncodable(frames)
    ensures forall i :: 0 <= i < |frames| ==> WellFramed(Wires(frames)[i]) && DecodeFrame(Wires(frames)[i]) == Parsed(frames[i])
  {
    hide WellFramed, DecodeFrame, Encodable;
    forall i | 0 <= i < |frames|
      ensures WellFramed(Wires(frames)[i]) && DecodeFrame(Wires(frames)[i]) == Parsed(frames[i])
    {
      assert frames[i] in frames;
      WireIsWellFramed(frames[i]);
      DecodeOfEncode(frames[i]);
    }
  }

  function AllParsed(frames: seq<TelemetryFrame>): seq<ParseResult> {
    seq(|frames|, i requires 0 <= i < |frames| => Parsed(frames[i]))
  }

  lemma {:induction false} FlattenPieces(sends: seq<seq<seq<byte>>>, frames: seq<TelemetryFrame>)
    requires AllEncodable(frames)
    requires |sends| == |frames|
    requires forall i :: 0 <= i < |frames| ==> Concat(sends[i]) == Wires(frames)[i]
    ensures Concat(Flatten(sends)) == Concat(Wires(frames))
    decreases |frames|
  {
    hide Wire, Encodable;
    if frames != [] {
      assert Wires(frames)[1..] == Wires(frames[1..]);
      FlattenPieces(sends[1..], frames[1..]);
      ConcatOfSum(sends[0], Flatten(sends[1..]));
    }
  }

  function Flatten(sends: seq<seq<seq<byte>>>): seq<seq<byte>> {
    if sends == [] then [] else sends[0] + Flatten(sends[1..])
  }

  lemma {:induction false} ConcatOfSum(xs: seq<seq<byte>>, ys: seq<seq<byte>>)
    ensures Concat(xs + ys) == Concat(xs) + Concat(ys)
    decreases |xs|
  {
    if xs == [] {
      assert xs + ys == ys;
    } else {
      ConcatOfSum(xs[1..], ys);
      assert (xs + ys)[1..] == xs[1..] + ys;
    }
  }

  /**
   Frames that are encoded, sent in any pieces and received in any other chunks decode to exactly
   the original list, and nothing is left in the receiver's buffer.
   */
  lemma DeliveryIsExact(frames: seq<TelemetryFrame>, sends: seq<seq<seq<byte>>>, chunks: seq<seq<byte>>)
    requires AllEncodable(frames)
    requires |sends| == |frames|
    requires forall i :: 0 <= i < |frames| ==> Concat(sends[i]) == Wires(frames)[i]
    requires Concat(chunks) == Concat(Flatten(sends))
    ensures FeedAll([], chunks).rest == [] && Decoded(FeedAll([], chunks).frames) == AllParsed(frames)
  {
    hide Encodable, WellFramed, DecodeFrame, Extract, Wires, FeedAll, Concat, Flatten, Settled;
    FlattenPieces(sends, frames);
    EmptyIsSettled();
    ChunkingIsIrrelevant([], chunks);
    assert [] + Concat(chunks) == Concat(chunks);
    WiresAreWellFramed(frames);
    ExactRecovery(Wires(frames));
  }

  /** At any moment of any run of the server, a connection has delivered a prefix of what its sender sent. */
  lemma ConnectionDelivery(rounds: seq<TcpServer.Round>, trace: seq<TcpServer.ServerState>, n: nat, conn: nat,
                           frames: seq<TelemetryFrame>) returns (k: nat)
    requires TcpServer.IsRun(rounds, trace) && n < |trace| && conn < |trace[n].streams|
    requires AllEncodable(frames)
    requires trace[n].streams[conn] <= Concat(Wires(frames))
    ensures k <= |frames|
    ensures Decoded(TcpServer.FramesOf(conn, trace[n].delivered)) == AllParsed(frames[..k])
    ensures trace[n].streams[conn] == Concat(Wires(frames)) ==> k == |frames|
  {
    hide Encodable, WellFramed, DecodeFrame, Extract, Wires, TcpServer.IsRun, TcpServer.FramesOf;
    TcpServer.ConnectionsAreIsolated(rounds, trace, n);
    WiresAreWellFramed(frames);
    var stream := trace[n].streams[conn];
    assert TcpServer.FramesOf(conn, trace[n].delivered) == Extract(stream).frames;
    k := PrefixRecovery(Wires(frames), stream);
    if stream == Concat(Wires(frames)) {
      ExactRecovery(Wires(frames));
    }
  }

  // ---------------------------------------------------------------- Through the pipeline

  lemma {:induction false} FramesOfParsed(frames: seq<TelemetryFrame>)
    ensures OrderedWriter.FramesOf(AllParsed(frames)) == frames
  {
    if frames != [] {
      var front := frames[..|frames| - 1];
      FramesOfParsed(front);
      assert AllParsed(frames)[..|frames| - 1] == AllParsed(front);
    }
  }

  /**
   The whole way: if the pipeline is given all that the extractor recovers and returns without an
   error, the export is the list of frames the simulator encoded, in order, with none rejected.
   */
  lemma ExportIsWhatWasSent(frames: seq<TelemetryFrame>, sends: seq<seq<seq<byte>>>, chunks: seq<seq<byte>>,
                            c: Pipeline.Config, labels: seq<Pipeline.Label>, trace: seq<Pipeline.State>, n: nat)
    requires AllEncodable(frames)
    requires |sends| == |frames|
    requires forall i :: 0 <= i < |frames| ==> Concat(sends[i]) == Wires(frames)[i]
    requires Concat(chunks) == Concat(Flatten(sends))
    requires c.input == FeedAll([], chunks).frames
    requires Pipeline.ValidOptions(c) && Pipeline.IsRun(c, labels, trace) && n < |trace|
    requires trace[n].main == Pipeline.Returned && trace[n].next == |c.input|
    ensures trace[n].books.written == frames && trace[n].books.rejected == 0
    ensures trace[n].books.decoded == trace[n].received == |frames|
  {
    hide Encodable, DecodeFrame, Wires, FeedAll, Concat, Flatten, Pipeline.IsRun, OrderedWriter.FramesOf, Observed;
    DeliveryIsExact(frames, sends, chunks);
    PipelineTheorems.CleanReturnIsComplete(c, labels, trace, n);
    assert PipelineInvariant.Results(c) == Decoded(c.input);
    assert PipelineInvariant.Results(c)[..|c.input|] == AllParsed(frames);
    FramesOfParsed(frames);
  }

  /** A capture of encoded frames, replayed to its end, is exported frame for frame. */
  lemma ExportIsWhatWasRecorded(frames: seq<TelemetryFrame>,
                                c: Pipeline.Config, labels: seq<Pipeline.Label>, trace: seq<Pipeline.State>, n: nat)
    requires AllEncodable(frames)
    requires Replay.ReadFile(Replay.FileOf(Wires(frames))) == Replay.Complete(c.input)
    requires Pipeline.ValidOptions(c) && Pipeline.IsRun(c, labels, trace) && n < |trace|
    requires trace[n].main == Pipeline.Returned && trace[n].next == |c.input|
    ensures trace[n].books.written == frames && trace[n].books.rejected == 0
  {
    hide Encodable, DecodeFrame, Wires, Pipeline.IsRun, OrderedWriter.FramesOf, Observed, WellFramed, Replay.FileOf,
         Replay.ReadFile;
    Replay.FormatIsBijective(Replay.FileOf(Wires(frames)), Wires(frames));
    WiresAreWellFramed(frames);
    PipelineTheorems.CleanReturnIsComplete(c, labels, trace, n);
    assert PipelineInvariant.Results(c) == Decoded(c.input);
    assert PipelineInvariant.Results(c)[..|c.input|] == AllParsed(frames);
    FramesOfParsed(frames);
  }

  // ---------------------------------------------------------------- Many connections into one export

  /** The frame strings the server hands to the pipeline, in order. */
  function Handed(d: seq<TcpServer.Delivery>): (b: seq<seq<byte>>)
    ensures |b| == |d|
  {
    seq(|d|, i requires 0 <= i < |d| => d[i].frame)
  }

  /** The export with the connection each frame came from; what does not decode leaves no entry. */
  ghost function Labelled(d: seq<TcpServer.Delivery>): seq<(nat, TelemetryFrame)> {
    if d == [] then []
    else
      var last := d[|d| - 1];
      var r := DecodeFrame(last.frame);
      Labelled(d[..|d| - 1]) + (if r.Parsed? then [(last.conn, r.frame)] else [])
  }

  ghost function Unlabelled(e: seq<(nat, TelemetryFrame)>): seq<TelemetryFrame> {
    seq(|e|, i requires 0 <= i < |e| => e[i].1)
  }

  /** What one connection contributes to the export, in order. */
  ghost function Share(conn: nat, e: seq<(nat, TelemetryFrame)>): seq<TelemetryFrame> {
    if e == [] then []
    else
      var last := e[|e| - 1];
      Share(conn, e[..|e| - 1]) + (if last.0 == conn then [last.1] else [])
  }

  lemma {:induction false} LabelsAreRight(d: seq<TcpServer.Delivery>)
    ensures Unlabelled(Labelled(d)) == OrderedWriter.FramesOf(Decoded(Handed(d)))
  {
    hide DecodeFrame;
    if d != [] {
      var front := d[..|d| - 1];
      LabelsAreRight(front);
      assert Decoded(Handed(d))[..|d| - 1] == Decoded(Handed(front));
    }
  }

  lemma ShareAppend(conn: nat, e: seq<(nat, TelemetryFrame)>, x: (nat, TelemetryFrame))
    ensures Share(conn, e + [x]) == Share(conn, e) + (if x.0 == conn then [x.1] else [])
  {
    assert (e + [x])[..|e|] == e;
  }

  lemma {:induction false} ShareIsOwn(conn: nat, d: seq<TcpServer.Delivery>)
    ensures Share(conn, Labelled(d)) == OrderedWriter.FramesOf(Decoded(TcpServer.FramesOf(conn, d)))
  {
    hide DecodeFrame, Share, TcpServer.FramesOf;
    if d == [] {
      NothingShared(conn);
    } else {
      var front, last := d[..|d| - 1], d[|d| - 1];
      ShareIsOwn(conn, front);
      assert d == front + [last];
      TcpServer.FramesOfAppend(conn, front, [last]);
      OneDelivery(conn, last);
      var own := TcpServer.FramesOf(conn, front);
      var r := DecodeFrame(last.frame);
      if r.Parsed? {
        ShareAppend(conn, Labelled(front), (last.conn, r.frame));
      } else {
        assert Labelled(front) + [] == Labelled(front);
      }
      if last.conn == conn {
        assert Decoded(own + [last.frame]) == Decoded(own) + [r];
        assert (Decoded(own) + [r])[..|own|] == Decoded(own);
      } else {
        assert own + [] == own;
        assert Share(conn, Labelled(front)) + [] == Share(conn, Labelled(front));
      }
    }
  }

  lemma NothingShared(conn: nat)
    ensures Share(conn, []) == [] && TcpServer.FramesOf(conn, []) == []
  {
  }

  lemma OneDelivery(conn: nat, d: TcpServer.Delivery)
    ensures TcpServer.FramesOf(conn, [d]) == if d.conn == conn then [d.frame] else []
  {
    assert [d][1..] == [];
    NothingShared(conn);
  }

  /**
   Many senders at once: the export is the labelled one without its labels, and the share of every
   connection that sent encoded frames is the list of those that arrived in full, in the order in
   which they were sent, whatever the other connections sent.
   */
  lemma ExportByConnection(rounds: seq<TcpServer.Round>, servers: seq<TcpServer.ServerState>, m: nat,
                           c: Pipeline.Config, labels: seq<Pipeline.Label>, trace: seq<Pipeline.State>, n: nat,
                           conn: nat, frames: seq<TelemetryFrame>) returns (k: nat)
    requires TcpServer.IsRun(rounds, servers) && m < |servers| && conn < |servers[m].streams|
    requires c.input == Handed(servers[m].delivered)
    requires Pipeline.ValidOptions(c) && Pipeline.IsRun(c, labels, trace) && n < |trace|
    requires trace[n].main == Pipeline.Returned && trace[n].next == |c.input|
    requires AllEncodable(frames) && servers[m].streams[conn] <= Concat(Wires(frames))
    ensures var labelled := Labelled(servers[m].delivered);
            trace[n].books.written == Unlabelled(labelled) && k <= |frames| && Share(conn, labelled) == frames[..k]
    ensures servers[m].streams[conn] == Concat(Wires(frames)) ==> k == |frames|
  {
    hide Encodable, DecodeFrame, Wires, Concat, Labelled, Unlabelled, Share, Observed, Handed,
         TcpServer.IsRun, Pipeline.IsRun, OrderedWriter.FramesOf, TcpServer.FramesOf;
    var d := servers[m].delivered;
    k := ConnectionDelivery(rounds, servers, m, conn, frames);
    PipelineTheorems.CleanReturnIsComplete(c, labels, trace, n);
    assert PipelineInvariant.Results(c) == Decoded(c.input);
    assert PipelineInvariant.Results(c)[..|c.input|] == Decoded(c.input);
    LabelsAreRight(d);
    ShareIsOwn(conn, d);
    FramesOfParsed(frames[..k]);
  }
}
