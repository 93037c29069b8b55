/**
 The multi-client TCP loop (src/NetworkServerTcp.cpp, NetworkServer::runTcp).

 What poll, recv and accept return is given by the environment.  Every accepted connection
 gets the next connection number; `delivered` is the sequence of callback calls, each tagged
 with the connection the frame came from.
 */
module TcpServer {
  import opened Bytes
  import opened StreamFraming

  datatype Revents = Revents(pollin: bool, pollhup: bool, pollerr: bool, pollnval: bool)

  datatype Recv = Data(bytes: seq<byte>) | Interrupted | Eof | WouldBlock | Failed

  /** The poll result of one client and what its recv calls return; when the script ends, recv would block. */
  datatype ClientEvent = ClientEvent(revents: Revents, script: seq<Recv>)

  datatype Delivery = Delivery(conn: nat, frame: seq<byte>)

  /** One entry of the client vector: its connection and the bytes its extractor holds. */
  datatype ClientView = ClientView(conn: nat, buffer: seq<byte>)

  // ---------------------------------------------------------------- One client, one event

  predicate Quiet(r: Revents) { !r.pollin && !r.pollhup && !r.pollerr && !r.pollnval }

  datatype Drained = Drained(frames: seq<seq<byte>>, buffer: seq<byte>, remove: bool)

  /** The inner recv loop. */
  function Drain(buffer: seq<byte>, script: seq<Recv>): Drained
    decreases |script|
  {
    if script == [] then Drained([], buffer, false)
    else match script[0]
      case Data(bytes) =>
        var x := Extract(buffer + bytes);
        var later := Drain(x.rest, script[1..]);
        Drained(x.frames + later.frames, later.buffer, later.remove)
      case Interrupted => Drain(buffer, script[1..])
      case Eof => Drained([], buffer, true)
      case WouldBlock => Drained([], buffer, false)
      case Failed => Drained([], buffer, true)
  }

  function Serve(buffer: seq<byte>, e: ClientEvent): Drained {
    if Quiet(e.revents) then Drained([], buffer, false)
    else
      var d := if e.revents.pollin || e.revents.pollhup then Drain(buffer, e.script) else Drained([], buffer, false);
      d.(remove := d.remove || e.revents.pollerr || e.revents.pollnval || e.revents.pollhup)
  }

  /** The bytes a client's recv calls hand over. */
  function Received(script: seq<Recv>): seq<byte>
    decreases |script|
  {
    if script == [] then []
    else match script[0]
      case Data(bytes) => bytes + Received(script[1..])
      case Interrupted => Received(script[1..])
      case Eof => []
      case WouldBlock => []
      case Failed => []
  }

  function ReceivedBy(e: ClientEvent): seq<byte> {
    if e.revents.pollin || e.revents.pollhup then Received(e.script) else []
  }

  /** A client's frames depend on its bytes, not on how recv cut them. */
  lemma {:induction false} DrainIsExtract(buffer: seq<byte>, script: seq<Recv>)
    requires Settled(buffer)
    ensures Extraction(Drain(buffer, script).frames, Drain(buffer, script).buffer) == Extract(buffer + Received(script))
    decreases |script|
  {
    hide Extract;
    if script == [] {
      assert buffer + [] == buffer;
    } else {
      match script[0]
      case Data(bytes) =>
        RestIsSettled(buffer + bytes);
        DrainIsExtract(Extract(buffer + bytes).rest, script[1..]);
        Fragmentation(buffer + bytes, Received(script[1..]));
        assert buffer + Received(script) == (buffer + bytes) + Received(script[1..]);
      case Interrupted =>
        DrainIsExtract(buffer, script[1..]);
      case _ =>
        assert buffer + [] == buffer;
    }
  }

  lemma ServeIsExtract(buffer: seq<byte>, e: ClientEvent)
    requires Settled(buffer)
    ensures Extraction(Serve(buffer, e).frames, Serve(buffer, e).buffer) == Extract(buffer + ReceivedBy(e))
  {
    hide Extract;
    DrainIsExtract(buffer, e.script);
    assert buffer + [] == buffer;
  }

  // ---------------------------------------------------------------- One round, declaratively

  function Tag(conn: nat, frames: seq<seq<byte>>): (d: seq<Delivery>)
    ensures |d| == |frames|
    ensures forall i :: 0 <= i < |d| ==> d[i] == Delivery(conn, frames[i])
  {
    seq(|frames|, i requires 0 <= i < |frames| => Delivery(conn, frames[i]))
  }

  /** Each client of the snapshot meets its own event; the removed ones drop out, order is kept. */
  function Survivors(views: seq<ClientView>, events: seq<ClientEvent>): seq<ClientView>
    requires |views| == |events|
  {
    if views == [] then []
    else
      var d := Serve(views[0].buffer, events[0]);
      (if d.remove then [] else [views[0].(buffer := d.buffer)]) + Survivors(views[1..], events[1..])
  }

  /** Clients are served from the last to the first. */
  function Deliveries(views: seq<ClientView>, events: seq<ClientEvent>): seq<Delivery>
    requires |views| == |events|
  {
    if views == [] then []
    else Deliveries(views[1..], events[1..]) + Tag(views[0].conn, Serve(views[0].buffer, events[0]).frames)
  }

  function Accepted(first: nat, count: nat): (v: seq<ClientView>)
    ensures |v| == count
    ensures forall i :: 0 <= i < count ==> v[i] == ClientView(first + i, [])
  {
    seq(count, i requires 0 <= i < count => ClientView(first + i, []))
  }

  // ---------------------------------------------------------------- The server

  class TcpClient {
    const conn: nat
    const extractor: StreamFrameExtractor

    constructor (conn: nat)
      ensures this.conn == conn && fresh(extractor) && extractor.buffer == []
    {
      this.conn := conn;
      var x := new StreamFrameExtractor();
      extractor := x;
    }
  }

  ghost function Extractors(clients: seq<TcpClient>): set<StreamFrameExtractor> {
    set i | 0 <= i < |clients| :: clients[i].extractor
  }

  ghost predicate Distinct(clients: seq<TcpClient>) {
    forall i, j :: 0 <= i < j < |clients| ==> clients[i].extractor != clients[j].extractor
  }

  ghost function ViewOf(clients: seq<TcpClient>): (v: seq<ClientView>)
    reads Extractors(clients)
    ensures |v| == |clients|
    ensures forall i :: 0 <= i < |clients| ==> v[i] == ClientView(clients[i].conn, clients[i].extractor.buffer)
  {
    seq(|clients|, i requires 0 <= i < |clients| reads Extractors(clients) =>
          ClientView(clients[i].conn, clients[i].extractor.buffer))
  }

  class TcpServer {
    var clients: seq<TcpClient>
    var delivered: seq<Delivery>
    var nextConn: nat

    constructor ()
      ensures clients == [] && delivered == [] && nextConn == 0
    {
      clients := [];
      delivered := [];
      nextConn := 0;
    }

    /** The recv loop of one client. */
    method DrainClient(client: TcpClient, script: seq<Recv>) returns (remove: bool)
      modifies this`delivered, client.extractor
      ensures var d := Drain(old(client.extractor.buffer), script);
              && remove == d.remove
              && client.extractor.buffer == d.buffer
              && delivered == old(delivered) + Tag(client.conn, d.frames)
    {
      hide Extract;
      remove := false;
      var k := 0;
      ghost var d := Drain(client.extractor.buffer, script);
      ghost var sent: seq<seq<byte>> := [];
      while k < |script|
        invariant 0 <= k <= |script| && !remove
        invariant delivered == old(delivered) + Tag(client.conn, sent)
        invariant var now := Drain(client.extractor.buffer, script[k..]);
                  d == Drained(sent + now.frames, now.buffer, now.remove)
        decreases |script| - k
      {
        assert script[k..][0] == script[k] && script[k..][1..] == script[k + 1..];
        match script[k]
        case Data(bytes) =>
          ghost var x := Extract(client.extractor.buffer + bytes);
          ghost var later := Drain(x.rest, script[k + 1..]);
          assert (sent + x.frames) + later.frames == sent + (x.frames + later.frames);
          var frames := client.extractor.Feed(bytes);
          delivered := delivered + Tag(client.conn, frames);
          sent := sent + frames;
          k := k + 1;
        case Interrupted =>
          k := k + 1;
        case Eof =>
          assert sent + [] == sent;
          return true;
        case WouldBlock =>
          assert sent + [] == sent;
          return false;
        case Failed =>
          assert sent + [] == sent;
          return true;
      }
      assert sent + [] == sent;
    }

    /** The body of the reverse traversal for one client of the snapshot. */
    method ServeClient(clientIndex: nat, e: ClientEvent)
      requires clientIndex < |clients| && Distinct(clients)
      modifies this`clients, this`delivered, clients[clientIndex].extractor
      ensures var v := old(ViewOf(clients));
              var d := Serve(v[clientIndex].buffer, e);
              && delivered == old(delivered) + Tag(v[clientIndex].conn, d.frames)
              && ViewOf(clients) == v[..clientIndex]
                   + (if d.remove then [] else [v[clientIndex].(buffer := d.buffer)]) + v[clientIndex + 1..]
      ensures Distinct(clients)
      ensures forall c :: c in clients ==> c in old(clients)
      ensures clients[..clientIndex] == old(clients[..clientIndex])
    {
      hide Drain;
      ghost var v := ViewOf(clients);
      if Quiet(e.revents) {
        assert v == v[..clientIndex] + [v[clientIndex]] + v[clientIndex + 1..];
        assert delivered == old(delivered) + Tag(v[clientIndex].conn, []);
        return;
      }
      var client := clients[clientIndex];
      var remove := e.revents.pollerr || e.revents.pollnval;
      if e.revents.pollin || e.revents.pollhup {
        var ended := DrainClient(client, e.script);
        remove := remove || ended;
      }
      if e.revents.pollhup {
        remove := true;
      }
      ghost var d := Serve(v[clientIndex].buffer, e);
      assert ViewOf(clients) == v[..clientIndex] + [v[clientIndex].(buffer := d.buffer)] + v[clientIndex + 1..];
      if remove {
        clients := clients[..clientIndex] + clients[clientIndex + 1..];
      }
    }

    /** The reverse traversal of the poll snapshot. */
    method ServeSnapshot(events: seq<ClientEvent>)
      requires |events| == |clients| && Distinct(clients)
      modifies this`clients, this`delivered, Extractors(clients)
      ensures ViewOf(clients) == Survivors(old(ViewOf(clients)), events)
      ensures delivered == old(delivered) + Deliveries(old(ViewOf(clients)), events)
      ensures Distinct(clients) && forall c :: c in clients ==> c in old(clients)
    {
      hide Serve, Survivors, Deliveries;
      ghost var v := ViewOf(clients);
      ghost var before := clients;
      var snapshotIndex := |clients|;
      assert v[|v|..] == [] && events[|v|..] == [];
      NothingServed();
      while snapshotIndex > 0
        invariant 0 <= snapshotIndex <= |v| == |events|
        invariant Distinct(clients)
        invariant forall c :: c in clients ==> c in before
        invariant snapshotIndex <= |clients| && clients[..snapshotIndex] == before[..snapshotIndex]
        invariant ViewOf(clients) == v[..snapshotIndex] + Survivors(v[snapshotIndex..], events[snapshotIndex..])
        invariant delivered == old(delivered) + Deliveries(v[snapshotIndex..], events[snapshotIndex..])
      {
        var clientIndex := snapshotIndex - 1;
        assert clients[clientIndex] == clients[..snapshotIndex][clientIndex] == before[clientIndex];
        ghost var w := ViewOf(clients);
        ServeClient(clientIndex, events[clientIndex]);
        SnapshotStep(v, events, clientIndex, w);
        snapshotIndex := snapshotIndex - 1;
        assert clients[..snapshotIndex] == before[..snapshotIndex];
      }
      assert v[0..] == v && events[0..] == events;
    }

    /** The accept loop. */
    method AcceptWaiting(accepted: nat)
      requires Distinct(clients)
      modifies this`clients, this`nextConn
      ensures ViewOf(clients) == old(ViewOf(clients)) + Accepted(old(nextConn), accepted)
      ensures nextConn == old(nextConn) + accepted
      ensures Distinct(clients)
    {
      ghost var v := ViewOf(clients);
      for k := 0 to accepted
        invariant Distinct(clients)
        invariant nextConn == old(nextConn) + k
        invariant ViewOf(clients) == v + Accepted(old(nextConn), k)
      {
        ghost var w := ViewOf(clients);
        var client := new TcpClient(nextConn);
        clients := clients + [client];
        nextConn := nextConn + 1;
        assert ViewOf(clients) == w + [ClientView(old(nextConn) + k, [])];
        assert v + Accepted(old(nextConn), k + 1) == v + Accepted(old(nextConn), k) + [ClientView(old(nextConn) + k, [])];
      }
    }

    /** One turn of the outer loop after poll returned; `accepted` connections are waiting. */
    method PollRound(events: seq<ClientEvent>, accepted: nat)
      requires |events| == |clients| && Distinct(clients)
      modifies this, Extractors(clients)
      ensures ViewOf(clients) == Survivors(old(ViewOf(clients)), events) + Accepted(old(nextConn), accepted)
      ensures delivered == old(delivered) + Deliveries(old(ViewOf(clients)), events)
      ensures nextConn == old(nextConn) + accepted
      ensures Distinct(clients)
    {
      ServeSnapshot(events);
      AcceptWaiting(accepted);
    }
  }

  lemma NothingServed()
    ensures Survivors([], []) == [] && Deliveries([], []) == []
  {
  }

  /** Serving client `k` extends the served part of the snapshot by one. */
  lemma SnapshotStep(v: seq<ClientView>, events: seq<ClientEvent>, k: nat, w: seq<ClientView>)
    requires |v| == |events| && k < |v|
    requires w == v[..k + 1] + Survivors(v[k + 1..], events[k + 1..])
    ensures k < |w| && w[k] == v[k]
    ensures var d := Serve(v[k].buffer, events[k]);
            && w[..k] + (if d.remove then [] else [v[k].(buffer := d.buffer)]) + w[k + 1..]
                 == v[..k] + Survivors(v[k..], events[k..])
            && Deliveries(v[k..], events[k..]) == Deliveries(v[k + 1..], events[k + 1..]) + Tag(v[k].conn, d.frames)
  {
    hide Serve;
    assert v[k..][1..] == v[k + 1..] && events[k..][1..] == events[k + 1..];
    assert w[k + 1..] == Survivors(v[k + 1..], events[k + 1..]);
    assert w[..k] == v[..k];
  }

  // ---------------------------------------------------------------- Runs

  datatype Round = Round(events: seq<ClientEvent>, accepted: nat)

  /** `streams[c]` records every byte connection `c` has handed over. */
  datatype ServerState = ServerState(views: seq<ClientView>, delivered: seq<Delivery>, streams: seq<seq<byte>>)

  ghost predicate Fits(st: ServerState, r: Round) { |r.events| == |st.views| }

  ghost predicate KnownConns(views: seq<ClientView>, n: nat) {
    forall i :: 0 <= i < |views| ==> views[i].conn < n
  }

  /** The streams after every client of the snapshot has read. */
  ghost function Grow(streams: seq<seq<byte>>, views: seq<ClientView>, events: seq<ClientEvent>): (s: seq<seq<byte>>)
    requires |views| == |events| && KnownConns(views, |streams|)
    ensures |s| == |streams|
    decreases |views|
  {
    if views == [] then streams
    else
      var c := views[0].conn;
      Grow(streams[c := streams[c] + ReceivedBy(events[0])], views[1..], events[1..])
  }

  ghost function Play(st: ServerState, r: Round): ServerState
    requires Fits(st, r) && KnownConns(st.views, |st.streams|)
  {
    ServerState(Survivors(st.views, r.events) + Accepted(|st.streams|, r.accepted),
                st.delivered + Deliveries(st.views, r.events),
                Grow(st.streams, st.views, r.events) + seq(r.accepted, i => []))
  }

  /** The frames a connection has delivered, in order. */
  ghost function FramesOf(c: nat, d: seq<Delivery>): seq<seq<byte>> {
    if d == [] then [] else (if d[0].conn == c then [d[0].frame] else []) + FramesOf(c, d[1..])
  }

  ghost predicate DistinctConns(views: seq<ClientView>) {
    forall i, j :: 0 <= i < j < |views| ==> views[i].conn != views[j].conn
  }

  /** Every connection's deliveries and buffer are what framing its own stream gives. */
  ghost predicate Isolated(st: ServerState) {
    && KnownConns(st.views, |st.streams|)
    && DistinctConns(st.views)
    && (forall i :: 0 <= i < |st.views| ==> st.views[i].buffer == Extract(st.streams[st.views[i].conn]).rest)
    && (forall c :: 0 <= c < |st.streams| ==> FramesOf(c, st.delivered) == Extract(st.streams[c]).frames)
  }

  const INITIAL: ServerState := ServerState([], [], [])

  lemma {:induction false} FramesOfAppend(c: nat, d: seq<Delivery>, e: seq<Delivery>)
    ensures FramesOf(c, d + e) == FramesOf(c, d) + FramesOf(c, e)
  {
    if d == [] {
      assert d + e == e;
    } else {
      assert (d + e)[1..] == d[1..] + e;
      FramesOfAppend(c, d[1..], e);
    }
  }

  lemma {:induction false} FramesOfTag(c: nat, conn: nat, frames: seq<seq<byte>>)
    ensures FramesOf(c, Tag(conn, frames)) == if c == conn then frames else []
  {
    if frames != [] {
      assert Tag(conn, frames)[1..] == Tag(conn, frames[1..]);
      FramesOfTag(c, conn, frames[1..]);
    }
  }

  /** A connection not in the snapshot delivers nothing and reads nothing in the round. */
  lemma {:induction false} AbsentConn(c: nat, streams: seq<seq<byte>>, views: seq<ClientView>, events: seq<ClientEvent>)
    requires |views| == |events| && KnownConns(views, |streams|) && c < |streams|
    requires forall i :: 0 <= i < |views| ==> views[i].conn != c
    ensures FramesOf(c, Deliveries(views, events)) == []
    ensures Grow(streams, views, events)[c] == streams[c]
    decreases |views|
  {
    hide Serve, ReceivedBy;
    if views != [] {
      var k := views[0].conn;
      var frames := Serve(views[0].buffer, events[0]).frames;
      AbsentConn(c, streams[k := streams[k] + ReceivedBy(events[0])], views[1..], events[1..]);
      FramesOfAppend(c, Deliveries(views[1..], events[1..]), Tag(k, frames));
      FramesOfTag(c, k, frames);
    }
  }

  /** A connection in the snapshot delivers and reads exactly what serving it alone would. */
  lemma {:induction false} PresentConn(i: nat, streams: seq<seq<byte>>, views: seq<ClientView>, events: seq<ClientEvent>)
    requires |views| == |events| && KnownConns(views, |streams|) && DistinctConns(views) && i < |views|
    ensures FramesOf(views[i].conn, Deliveries(views, events)) == Serve(views[i].buffer, events[i]).frames
    ensures Grow(streams, views, events)[views[i].conn] == streams[views[i].conn] + ReceivedBy(events[i])
    decreases |views|
  {
    hide Serve, ReceivedBy;
    var c, k := views[i].conn, views[0].conn;
    var frames := Serve(views[0].buffer, events[0]).frames;
    var grown := streams[k := streams[k] + ReceivedBy(events[0])];
    FramesOfAppend(c, Deliveries(views[1..], events[1..]), Tag(k, frames));
    FramesOfTag(c, k, frames);
    if i == 0 {
      AbsentConn(c, grown, views[1..], events[1..]);
    } else {
      PresentConn(i - 1, grown, views[1..], events[1..]);
    }
  }

  /** A survivor is a client of the snapshot with its own event applied. */
  lemma {:induction false} SurvivorOrigin(j: nat, views: seq<ClientView>, events: seq<ClientEvent>) returns (i: nat)
    requires |views| == |events| && j < |Survivors(views, events)|
    ensures j <= i < |views|
    ensures Survivors(views, events)[j] == views[i].(buffer := Serve(views[i].buffer, events[i]).buffer)
    decreases |views|
  {
    hide Serve;
    if Serve(views[0].buffer, events[0]).remove {
      i := SurvivorOrigin(j, views[1..], events[1..]);
      i := i + 1;
    } else if j == 0 {
      i := 0;
    } else {
      i := SurvivorOrigin(j - 1, views[1..], events[1..]);
      i := i + 1;
    }
  }

  lemma {:induction false} SurvivorConns(views: seq<ClientView>, events: seq<ClientEvent>)
    requires |views| == |events| && DistinctConns(views)
    ensures DistinctConns(Survivors(views, events))
    decreases |views|
  {
    hide Serve;
    if views != [] {
      var s := Survivors(views[1..], events[1..]);
      SurvivorConns(views[1..], events[1..]);
      forall j | 0 <= j < |s|
        ensures s[j].conn != views[0].conn
      {
        var i := SurvivorOrigin(j, views[1..], events[1..]);
      }
    }
  }

  lemma ServedConn(st: ServerState, r: Round, i: nat)
    requires Isolated(st) && Fits(st, r) && i < |st.views|
    ensures var c := st.views[i].conn;
            var s := Grow(st.streams, st.views, r.events)[c];
            && Serve(st.views[i].buffer, r.events[i]).buffer == Extract(s).rest
            && FramesOf(c, st.delivered + Deliveries(st.views, r.events)) == Extract(s).frames
  {
    hide Serve, ReceivedBy, Extract, Grow, Deliveries;
    var c := st.views[i].conn;
    PresentConn(i, st.streams, st.views, r.events);
    FramesOfAppend(c, st.delivered, Deliveries(st.views, r.events));
    RestIsSettled(st.streams[c]);
    ServeIsExtract(st.views[i].buffer, r.events[i]);
    Fragmentation(st.streams[c], ReceivedBy(r.events[i]));
  }

  lemma UnservedConn(st: ServerState, r: Round, c: nat)
    requires Isolated(st) && Fits(st, r) && c < |st.streams|
    requires forall i :: 0 <= i < |st.views| ==> st.views[i].conn != c
    ensures FramesOf(c, st.delivered + Deliveries(st.views, r.events))
         == Extract(Grow(st.streams, st.views, r.events)[c]).frames
  {
    hide Extract, Grow, Deliveries;
    AbsentConn(c, st.streams, st.views, r.events);
    FramesOfAppend(c, st.delivered, Deliveries(st.views, r.events));
  }

  lemma {:induction false} UnknownConn(c: nat, d: seq<Delivery>)
    requires forall i :: 0 <= i < |d| ==> d[i].conn != c
    ensures FramesOf(c, d) == []
  {
    if d != [] {
      UnknownConn(c, d[1..]);
    }
  }

  /** Deliveries carry the connection numbers handed out so far. */
  ghost predicate KnownDeliveries(d: seq<Delivery>, n: nat) {
    forall i :: 0 <= i < |d| ==> d[i].conn < n
  }

  lemma {:induction false} DeliveriesKnown(views: seq<ClientView>, events: seq<ClientEvent>, n: nat)
    requires |views| == |events| && KnownConns(views, n)
    ensures KnownDeliveries(Deliveries(views, events), n)
    decreases |views|
  {
    hide Serve;
    if views != [] {
      DeliveriesKnown(views[1..], events[1..], n);
    }
  }

  lemma RoundKeepsViews(st: ServerState, r: Round)
    requires Isolated(st) && Fits(st, r)
    ensures var st' := Play(st, r);
            && KnownConns(st'.views, |st'.streams|) && DistinctConns(st'.views)
            && forall j :: 0 <= j < |st'.views| ==> st'.views[j].buffer == Extract(st'.streams[st'.views[j].conn]).rest
  {
    hide Serve, Extract, Grow, Deliveries;
    var st' := Play(st, r);
    var s := Survivors(st.views, r.events);
    forall j | 0 <= j < |st'.views|
      ensures st'.views[j].conn < |st'.streams|
      ensures j < |s| ==> st'.views[j].conn < |st.streams|
      ensures st'.views[j].buffer == Extract(st'.streams[st'.views[j].conn]).rest
    {
      if j < |s| {
        var i := SurvivorOrigin(j, st.views, r.events);
        ServedConn(st, r, i);
      } else {
        EmptyStream();
      }
    }
    SurvivorConns(st.views, r.events);
  }

  lemma EmptyStream()
    ensures Extract([]) == Extraction([], [])
  {
  }

  lemma RoundKeepsDeliveries(st: ServerState, r: Round)
    requires Isolated(st) && Fits(st, r) && KnownDeliveries(st.delivered, |st.streams|)
    ensures var st' := Play(st, r);
            && KnownDeliveries(st'.delivered, |st'.streams|)
            && forall c :: 0 <= c < |st'.streams| ==> FramesOf(c, st'.delivered) == Extract(st'.streams[c]).frames
  {
    hide Serve, Extract, Grow, Deliveries;
    var st' := Play(st, r);
    DeliveriesKnown(st.views, r.events, |st.streams|);
    forall c | 0 <= c < |st'.streams|
      ensures FramesOf(c, st'.delivered) == Extract(st'.streams[c]).frames
    {
      if c >= |st.streams| {
        UnknownConn(c, st'.delivered);
        EmptyStream();
      } else if i :| 0 <= i < |st.views| && st.views[i].conn == c {
        ServedConn(st, r, i);
      } else {
        UnservedConn(st, r, c);
      }
    }
  }

  ghost predicate Follows(s: ServerState, r: Round, t: ServerState) {
    Fits(s, r) && KnownConns(s.views, |s.streams|) && t == Play(s, r)
  }

  /** `trace` lists the server's states before, between and after the rounds. */
  ghost predicate IsRun(rounds: seq<Round>, trace: seq<ServerState>) {
    && |trace| == |rounds| + 1
    && trace[0] == INITIAL
    && forall i :: 0 <= i < |rounds| ==> Follows(trace[i], rounds[i], trace[i + 1])
  }

  /** After any rounds, whatever the interleaving, no connection sees another one's bytes. */
  lemma {:induction false} ConnectionsAreIsolated(rounds: seq<Round>, trace: seq<ServerState>, n: nat)
    requires IsRun(rounds, trace) && n < |trace|
    ensures Isolated(trace[n]) && KnownDeliveries(trace[n].delivered, |trace[n].streams|)
  {
    hide Play, Extract;
    if n > 0 {
      ConnectionsAreIsolated(rounds, trace, n - 1);
      assert Follows(trace[n - 1], rounds[n - 1], trace[n]);
      RoundKeepsViews(trace[n - 1], rounds[n - 1]);
      RoundKeepsDeliveries(trace[n - 1], rounds[n - 1]);
    }
  }
}
