/**
 Who stays connected, and which bytes a connection contributes (src/NetworkServerTcp.cpp:158-213),
 said of the poll events and recv results alone.
 */
module TcpConnections {
  import opened Bytes
  import opened StreamFraming
  import opened TcpServer

  // ---------------------------------------------------------------- One recv loop

  /** recv goes on after data and after a signal, and after nothing else. */
  predicate GoesOn(r: Recv) { r.Data? || r.Interrupted? }

  ghost predicate AllGoOn(script: seq<Recv>, k: nat)
    requires k <= |script|
  {
    forall j :: 0 <= j < k ==> GoesOn(script[j])
  }

  /** The peer has closed, or recv has failed, before recv ran out of data. */
  ghost predicate BreaksOff(script: seq<Recv>) {
    exists i :: 0 <= i < |script| && (script[i] == Eof || script[i] == Failed) && AllGoOn(script, i)
  }

  lemma ShiftGoOn(script: seq<Recv>, k: nat)
    requires script != [] && GoesOn(script[0]) && k <= |script[1..]|
    ensures AllGoOn(script, k + 1) <==> AllGoOn(script[1..], k)
  {
    if AllGoOn(script, k + 1) {
      forall j | 0 <= j < k
        ensures GoesOn(script[1..][j])
      {
        assert script[1..][j] == script[j + 1];
      }
    }
  }

  lemma BreakOffLater(script: seq<Recv>)
    requires script != [] && GoesOn(script[0])
    ensures BreaksOff(script) <==> BreaksOff(script[1..])
  {
    hide AllGoOn;
    if i :| 0 <= i < |script| && (script[i] == Eof || script[i] == Failed) && AllGoOn(script, i) {
      assert i > 0 && script[1..][i - 1] == script[i];
      ShiftGoOn(script, i - 1);
    }
    if i :| 0 <= i < |script[1..]| && (script[1..][i] == Eof || script[1..][i] == Failed) && AllGoOn(script[1..], i) {
      assert script[i + 1] == script[1..][i];
      ShiftGoOn(script, i);
    }
  }

  /** A client goes exactly when its recv calls reach the end of the stream or an error. */
  lemma {:induction false} DrainRemoves(buffer: seq<byte>, script: seq<Recv>)
    ensures Drain(buffer, script).remove <==> BreaksOff(script)
    decreases |script|
  {
    hide Extract, BreaksOff;
    if script == [] {
      NothingBreaksOff();
    } else if script[0].Data? {
      BreakOffLater(script);
      DrainRemoves(Extract(buffer + script[0].bytes).rest, script[1..]);
    } else if script[0].Interrupted? {
      BreakOffLater(script);
      DrainRemoves(buffer, script[1..]);
    } else {
      FirstDecides(script);
    }
  }

  lemma NothingBreaksOff()
    ensures !BreaksOff([])
  {
  }

  lemma FirstDecides(script: seq<Recv>)
    requires script != [] && !GoesOn(script[0])
    ensures BreaksOff(script) <==> script[0] == Eof || script[0] == Failed
  {
    if script[0] == Eof || script[0] == Failed {
      assert AllGoOn(script, 0);
    }
  }

  /** All data in a list of recv results. */
  function Joined(script: seq<Recv>): seq<byte> {
    if script == [] then [] else (if script[0].Data? then script[0].bytes else []) + Joined(script[1..])
  }

  /** What is received are the data before the first result that ends the loop, all of them, in order. */
  lemma {:induction false} ReceivedIsJoined(script: seq<Recv>, k: nat)
    requires k <= |script| && AllGoOn(script, k) && (k < |script| ==> !GoesOn(script[k]))
    ensures Received(script) == Joined(script[..k])
    decreases |script|
  {
    hide AllGoOn;
    if k > 0 {
      FirstGoesOn(script, k);
      ShiftGoOn(script, k - 1);
      ReceivedIsJoined(script[1..], k - 1);
      assert script[..k][1..] == script[1..][..k - 1];
    } else {
      assert script[..0] == [];
    }
  }

  lemma FirstGoesOn(script: seq<Recv>, k: nat)
    requires 0 < k <= |script| && AllGoOn(script, k)
    ensures GoesOn(script[0])
  {
  }

  // ---------------------------------------------------------------- One client, one event

  /** The event ends the connection: an error, a hang-up, or data to read that break off. */
  ghost predicate EndsConnection(e: ClientEvent) {
    || e.revents.pollerr || e.revents.pollnval || e.revents.pollhup
    || (e.revents.pollin && BreaksOff(e.script))
  }

  lemma ServeRemoves(buffer: seq<byte>, e: ClientEvent)
    ensures Serve(buffer, e).remove <==> EndsConnection(e)
  {
    hide Drain, BreaksOff;
    DrainRemoves(buffer, e.script);
  }

  // ---------------------------------------------------------------- One round

  ghost predicate Connected(views: seq<ClientView>, c: nat) {
    exists i :: 0 <= i < |views| && views[i].conn == c
  }

  /** Connection `c` is polled in the round and its event ends it. */
  ghost predicate EndsIn(views: seq<ClientView>, events: seq<ClientEvent>, c: nat) {
    exists i :: 0 <= i < |views| && i < |events| && views[i].conn == c && EndsConnection(events[i])
  }

  lemma {:induction false} WhoSurvives(views: seq<ClientView>, events: seq<ClientEvent>, c: nat)
    requires |views| == |events| && DistinctConns(views)
    ensures Connected(Survivors(views, events), c) <==> Connected(views, c) && !EndsIn(views, events, c)
    decreases |views|
  {
    hide Serve, EndsConnection;
    if views != [] {
      var v, e := views[1..], events[1..];
      ServeRemoves(views[0].buffer, events[0]);
      WhoSurvives(v, e, c);
      ConnectedCons(views, c);
      EndsCons(views, events, c);
      var s := Survivors(views, events);
      if Serve(views[0].buffer, events[0]).remove {
        assert s == Survivors(v, e);
      } else {
        assert s[1..] == Survivors(v, e);
        ConnectedCons(s, c);
      }
      if views[0].conn == c {
        FirstIsOnly(views, events);
      }
    }
  }

  lemma ConnectedCons(views: seq<ClientView>, c: nat)
    requires views != []
    ensures Connected(views, c) <==> views[0].conn == c || Connected(views[1..], c)
  {
    if i :| 0 <= i < |views| && views[i].conn == c && i > 0 {
      assert views[1..][i - 1].conn == c;
    }
    if i :| 0 <= i < |views[1..]| && views[1..][i].conn == c {
      assert views[i + 1].conn == c;
    }
  }

  lemma EndsCons(views: seq<ClientView>, events: seq<ClientEvent>, c: nat)
    requires views != [] && |events| == |views|
    ensures EndsIn(views, events, c)
       <==> (views[0].conn == c && EndsConnection(events[0])) || EndsIn(views[1..], events[1..], c)
  {
    hide EndsConnection;
    if i :| 0 <= i < |views| && views[i].conn == c && EndsConnection(events[i]) && i > 0 {
      assert views[1..][i - 1].conn == c && EndsConnection(events[1..][i - 1]);
    }
    if i :| 0 <= i < |views[1..]| && views[1..][i].conn == c && EndsConnection(events[1..][i]) {
      assert views[i + 1].conn == c && EndsConnection(events[i + 1]);
    }
  }

  lemma FirstIsOnly(views: seq<ClientView>, events: seq<ClientEvent>)
    requires views != [] && |events| == |views| && DistinctConns(views)
    ensures !Connected(views[1..], views[0].conn) && !EndsIn(views[1..], events[1..], views[0].conn)
  {
    hide EndsConnection;
  }

  // ---------------------------------------------------------------- Whole runs

  lemma ConnectedAppend(a: seq<ClientView>, b: seq<ClientView>, c: nat)
    ensures Connected(a + b, c) <==> Connected(a, c) || Connected(b, c)
  {
    if i :| 0 <= i < |a| && a[i].conn == c {
      assert (a + b)[i].conn == c;
    }
    if i :| 0 <= i < |b| && b[i].conn == c {
      assert (a + b)[|a| + i].conn == c;
    }
  }

  lemma AcceptedAreConnected(first: nat, count: nat, c: nat)
    ensures Connected(Accepted(first, count), c) <==> first <= c < first + count
  {
    if first <= c < first + count {
      assert Accepted(first, count)[c - first].conn == c;
    }
  }

  lemma UnknownIsNotConnected(views: seq<ClientView>, n: nat, c: nat)
    requires KnownConns(views, n) && c >= n
    ensures !Connected(views, c)
  {
  }

  lemma RoundConnects(st: ServerState, r: Round, c: nat)
    requires Isolated(st) && Fits(st, r)
    ensures var st' := Play(st, r);
            && |st'.streams| == |st.streams| + r.accepted
            && (c < |st'.streams| ==>
                  (Connected(st'.views, c) <==>
                   c >= |st.streams| || (Connected(st.views, c) && !EndsIn(st.views, r.events, c))))
  {
    hide Extract, Grow, Deliveries, Survivors, Connected, EndsIn, FramesOf;
    WhoSurvives(st.views, r.events, c);
    ConnectedAppend(Survivors(st.views, r.events), Accepted(|st.streams|, r.accepted), c);
    AcceptedAreConnected(|st.streams|, r.accepted, c);
    if c >= |st.streams| {
      UnknownIsNotConnected(st.views, |st.streams|, c);
    }
  }

  /** A connection ends in the round after state `m`. */
  ghost predicate EndsAt(rounds: seq<Round>, trace: seq<ServerState>, m: nat, c: nat)
    requires m < |rounds| && m < |trace|
  {
    EndsIn(trace[m].views, rounds[m].events, c)
  }

  /** A connection numbered later has no events yet. */
  lemma NotYet(rounds: seq<Round>, trace: seq<ServerState>, m: nat, n: nat, c: nat)
    requires IsRun(rounds, trace) && m <= n < |trace| && m < |rounds| && c >= |trace[n].streams|
    ensures !EndsAt(rounds, trace, m, c)
    decreases n - m
  {
    hide Isolated, Play, EndsConnection;
    StreamsGrow(rounds, trace, m, n);
    ConnectionsAreIsolated(rounds, trace, m);
    KnownInIsolated(trace[m]);
  }

  lemma KnownInIsolated(st: ServerState)
    requires Isolated(st)
    ensures KnownConns(st.views, |st.streams|)
  {
  }

  lemma {:induction false} StreamsGrow(rounds: seq<Round>, trace: seq<ServerState>, m: nat, n: nat)
    requires IsRun(rounds, trace) && m <= n < |trace|
    ensures |trace[m].streams| <= |trace[n].streams|
    decreases n
  {
    hide Survivors, Deliveries, Grow;
    if m < n {
      StreamsGrow(rounds, trace, m, n - 1);
      assert Follows(trace[n - 1], rounds[n - 1], trace[n - 1 + 1]);
    }
  }

  /**
   A connection that has been accepted is still served exactly when none of its events so far was an
   error, a hang-up, or readable data that broke off: in particular a read that merely ran dry keeps it.
   */
  lemma {:induction false} WhoIsConnected(rounds: seq<Round>, trace: seq<ServerState>, n: nat, c: nat)
    requires IsRun(rounds, trace) && n < |trace| && c < |trace[n].streams|
    ensures Connected(trace[n].views, c) <==> forall m :: 0 <= m < n ==> !EndsAt(rounds, trace, m, c)
    decreases n
  {
    hide Isolated, Play, Connected, EndsIn;
    if n > 0 {
      ConnectionsAreIsolated(rounds, trace, n - 1);
      assert Follows(trace[n - 1], rounds[n - 1], trace[n - 1 + 1]);
      RoundConnects(trace[n - 1], rounds[n - 1], c);
      if c < |trace[n - 1].streams| {
        WhoIsConnected(rounds, trace, n - 1, c);
        assert EndsAt(rounds, trace, n - 1, c) <==> EndsIn(trace[n - 1].views, rounds[n - 1].events, c);
      } else {
        forall m | 0 <= m < n
          ensures !EndsAt(rounds, trace, m, c)
        {
          NotYet(rounds, trace, m, n - 1, c);
        }
      }
    }
  }

  lemma RoundReads(st: ServerState, r: Round, i: nat)
    requires Isolated(st) && Fits(st, r) && i < |st.views|
    ensures var c := st.views[i].conn;
            c < |st.streams| && Play(st, r).streams[c] == st.streams[c] + ReceivedBy(r.events[i])
  {
    hide Extract, Deliveries, Survivors, Received;
    PresentConn(i, st.streams, st.views, r.events);
  }

  /**
   In each round a served connection's stream grows by all its data up to the first recv result that
   is neither data nor EINTR, also when the hang-up comes with the last of them, and by nothing else.
   */
  lemma StreamsAreWhatWasReceived(rounds: seq<Round>, trace: seq<ServerState>, n: nat, i: nat, k: nat)
    requires IsRun(rounds, trace) && n < |rounds| && i < |trace[n].views| && i < |rounds[n].events|
    requires var script := rounds[n].events[i].script;
             k <= |script| && AllGoOn(script, k) && (k < |script| ==> !GoesOn(script[k]))
    ensures var c, e := trace[n].views[i].conn, rounds[n].events[i];
            && c < |trace[n].streams| <= |trace[n + 1].streams|
            && trace[n + 1].streams[c] == trace[n].streams[c]
                 + (if e.revents.pollin || e.revents.pollhup then Joined(e.script[..k]) else [])
  {
    hide Isolated, Play, Received, Joined, AllGoOn;
    ConnectionsAreIsolated(rounds, trace, n);
    assert Follows(trace[n], rounds[n], trace[n + 1]);
    RoundReads(trace[n], rounds[n], i);
    StreamsGrow(rounds, trace, n, n + 1);
    ReceivedIsJoined(rounds[n].events[i].script, k);
  }
}
