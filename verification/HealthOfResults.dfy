/**
 The health monitor as the writer uses it (apps/ground_station/GroundStationWorkers.cpp:113-138):
 what decoded and rejected frames, not samples, do to the state, and the list of its changes.
 */
module HealthOfResults {
  import opened Bytes
  import opened FrameCodec
  import opened StationHealth
  import opened OrderedWriter
  import opened Pipeline
  import opened PipelineInvariant
  import opened PipelineTheorems

  // ---------------------------------------------------------------- A uniform window of results

  ghost predicate LastRejected(rs: seq<ParseResult>, n: nat) {
    n <= |rs| && forall i :: |rs| - n <= i < |rs| ==> rs[i].Rejected?
  }

  predicate HasStatus(r: ParseResult, low: byte, high: byte) {
    r.Parsed? && (r.frame.status == low || r.frame.status == high)
  }

  /** Frames whose status byte is 2 or 3, CRITICAL or SAFE_MODE. */
  ghost predicate LastCritical(rs: seq<ParseResult>, n: nat) {
    n <= |rs| && forall i :: |rs| - n <= i < |rs| ==> HasStatus(rs[i], 2, 3)
  }

  /** Frames whose status byte is 0 or 1, NOMINAL or WARNING. */
  ghost predicate LastGood(rs: seq<ParseResult>, n: nat) {
    n <= |rs| && forall i :: |rs| - n <= i < |rs| ==> HasStatus(rs[i], 0, 1)
  }

  lemma SamplesOfPrefix(rs: seq<ParseResult>, k: nat)
    requires k <= |rs|
    ensures SamplesOf(rs)[..k] == SamplesOf(rs[..k])
  {
  }

  lemma FullOfRejections(rate: real, n: nat)
    requires 0.0 <= rate <= 1.0 && n > 0
    ensures Threshold(rate, n) <= n as real
    ensures Threshold(rate, n) == n as real <==> rate == 1.0
  {
    ScaledOrder(rate, 1.0, n);
    assert Threshold(1.0, n) == n as real;
  }

  /** A window of rejected frames degrades the station, unless it was degraded and any rate lets it recover. */
  lemma RejectedFramesDegrade(c: HealthConfig, rs: seq<ParseResult>)
    requires ValidConfig(c) && c.enabled && LastRejected(rs, c.windowSize)
    ensures After(c, SamplesOf(rs)).state == Degraded
       <==> c.recoveryRejectionRate < 1.0 || After(c, SamplesOf(rs[..|rs| - 1])).state == Nominal
  {
    hide After, Threshold;
    SamplesOfPrefix(rs, |rs| - 1);
    UniformWindow(c, SamplesOf(rs), Sample(true, false));
    FullOfRejections(c.degradedRejectionRate, c.windowSize);
    FullOfRejections(c.recoveryRejectionRate, c.windowSize);
  }

  lemma CriticalFramesDegrade(c: HealthConfig, rs: seq<ParseResult>)
    requires ValidConfig(c) && c.enabled && LastCritical(rs, c.windowSize)
    ensures After(c, SamplesOf(rs)).state == Degraded
  {
    hide After;
    CriticalWindow(c, SamplesOf(rs));
  }

  /** A window of good frames recovers, exactly when `GoodWindow` says so. */
  lemma GoodFramesRecover(c: HealthConfig, rs: seq<ParseResult>)
    requires ValidConfig(c) && c.enabled && LastGood(rs, c.windowSize)
    ensures After(c, SamplesOf(rs)).state == Nominal
       <==> c.degradedRejectionRate > 0.0 || After(c, SamplesOf(rs[..|rs| - 1])).state == Degraded
  {
    hide After;
    SamplesOfPrefix(rs, |rs| - 1);
    GoodWindow(c, SamplesOf(rs));
  }

  // ---------------------------------------------------------------- The list of transitions

  /** Each transition changes the state and starts where the one before it ended. */
  ghost predicate Chain(ts: seq<Transition>, first: StationState, last: StationState) {
    if ts == [] then first == last
    else
      var t := ts[|ts| - 1];
      t.from != t.to && t.to == last && Chain(ts[..|ts| - 1], first, t.from)
  }

  /** Sample number `i` changes the state. */
  ghost predicate ChangesAt(c: HealthConfig, h: seq<Sample>, i: nat) {
    i < |h| && After(c, h[..i]).state != After(c, h[..i + 1]).state
  }

  ghost function Changes(c: HealthConfig, h: seq<Sample>): set<nat> {
    set i: nat | i < |h| && ChangesAt(c, h, i)
  }

  lemma ChangesNext(c: HealthConfig, h: seq<Sample>)
    requires h != []
    ensures var g := h[..|h| - 1];
            && Changes(c, h) == Changes(c, g) + (if After(c, g).state != After(c, h).state then {|g|} else {})
            && |g| !in Changes(c, g)
  {
    hide After;
    var g := h[..|h| - 1];
    assert h[..|g| + 1] == h;
    forall i: nat | i < |g|
      ensures ChangesAt(c, h, i) <==> ChangesAt(c, g, i)
    {
      assert h[..i] == g[..i] && h[..i + 1] == g[..i + 1];
    }
    assert ChangesAt(c, h, |g|) <==> After(c, g).state != After(c, h).state;
  }

  lemma RecordMoves(c: HealthConfig, m: Memory, s: Sample)
    ensures var (n, t) := Record(c, m, s);
            if n.state == m.state then t == None
            else t.Some? && t.value.from == m.state && t.value.to == n.state
  {
    hide Target, SnapshotOf, Last;
  }

  lemma NothingChanges(c: HealthConfig)
    ensures Changes(c, []) == {}
  {
  }

  lemma OneMore(ts: seq<Transition>, t: Option<Transition>, from: StationState, to: StationState)
    requires Chain(ts, Nominal, from)
    requires if from == to then t == None else t.Some? && t.value.from == from && t.value.to == to
    ensures Chain(ts + Listed(t), Nominal, to)
  {
    if t.Some? {
      assert (ts + [t.value])[..|ts|] == ts;
    } else {
      assert ts + [] == ts;
    }
  }

  /** The transitions reported lead from NOMINAL to the present state, one for each change of state. */
  lemma {:induction false} TransitionsTellTheState(c: HealthConfig, h: seq<Sample>)
    ensures Chain(TransitionsOf(c, h), Nominal, After(c, h).state)
    ensures |TransitionsOf(c, h)| == |Changes(c, h)|
  {
    hide Record, Changes;
    if h == [] {
      NothingChanges(c);
    } else {
      var g := h[..|h| - 1];
      TransitionsTellTheState(c, g);
      RecordMoves(c, After(c, g), h[|h| - 1]);
      ChangesNext(c, h);
      OneMore(TransitionsOf(c, g), TransitionAt(c, h, |g|), After(c, g).state, After(c, h).state);
    }
  }

  /** So at every moment of every run, also after the writer has failed in the middle of a result. */
  lemma TransitionsOfRun(c: Config, labels: seq<Label>, trace: seq<State>, n: nat)
    requires IsRun(c, labels, trace) && n < |trace|
    ensures Chain(trace[n].books.transitions, Nominal, trace[n].books.health.state)
  {
    hide IsRun, Chain, Counted, Exported, After, TransitionsOf, SamplesOf, FramesOf, WriterFailed, Results;
    OutputFollowsInput(c, labels, trace, n);
    var b, e := trace[n].books, trace[n].books.expected;
    if Observed(c.health, b, Results(c)[..e]) {
      TransitionsTellTheState(c.health, SamplesOf(Results(c)[..e]));
    } else {
      TransitionsTellTheState(c.health, SamplesOf(Results(c)[..e + 1]));
    }
  }
}
