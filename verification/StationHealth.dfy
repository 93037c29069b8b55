/**
 The station health monitor (src/StationHealth.cpp): a sliding window with two hystereses.

 Rates are exact: `rejected / samples >= rate` is read as `rejected >= rate * samples`.
 */
module StationHealth {
  import opened Bytes
  import opened FrameCodec

  datatype StationState = Nominal | Degraded

  datatype HealthConfig = HealthConfig(
    enabled: bool, windowSize: nat, minSamples: nat,
    degradedRejectionRate: real, recoveryRejectionRate: real,
    criticalFramesForDegraded: nat, criticalFramesForRecovery: nat)

  datatype Sample = Sample(rejected: bool, critical: bool)

  datatype Snapshot = Snapshot(state: StationState, samples: nat, rejected: nat, critical: nat)

  datatype Transition = Transition(from: StationState, to: StationState, snapshot: Snapshot)

  /** The window and the state: all that a monitor remembers. */
  datatype Memory = Memory(window: seq<Sample>, state: StationState)

  predicate ValidConfig(c: HealthConfig) {
    && c.windowSize > 0
    && 0 < c.minSamples <= c.windowSize
    && 0.0 <= c.recoveryRejectionRate <= c.degradedRejectionRate <= 1.0
    && 0 < c.criticalFramesForDegraded <= c.windowSize
    && c.criticalFramesForRecovery < c.criticalFramesForDegraded
  }

  // ---------------------------------------------------------------- Specification

  predicate IsCriticalTelemetry(f: TelemetryFrame) {
    f.status == CRITICAL || f.status == SAFE_MODE
  }

  /** The sample a parse result contributes. */
  function SampleOf(r: ParseResult): Sample {
    match r
    case Parsed(f) => Sample(false, IsCriticalTelemetry(f))
    case Rejected(_) => Sample(true, false)
  }

  function RejectedIn(w: seq<Sample>): (n: nat)
    ensures n <= |w|
  {
    if w == [] then 0 else RejectedIn(w[..|w| - 1]) + (if w[|w| - 1].rejected then 1 else 0)
  }

  function CriticalIn(w: seq<Sample>): (n: nat)
    ensures n <= |w|
  {
    if w == [] then 0 else CriticalIn(w[..|w| - 1]) + (if w[|w| - 1].critical then 1 else 0)
  }

  function SnapshotOf(m: Memory): Snapshot {
    Snapshot(m.state, |m.window|, RejectedIn(m.window), CriticalIn(m.window))
  }

  /** The rejection count that corresponds to a rate. */
  function Threshold(rate: real, samples: nat): real { rate * samples as real }

  predicate MustDegrade(c: HealthConfig, s: Snapshot) {
    || s.rejected as real >= Threshold(c.degradedRejectionRate, s.samples)
    || s.critical >= c.criticalFramesForDegraded
  }

  predicate MayRecover(c: HealthConfig, s: Snapshot) {
    && s.rejected as real <= Threshold(c.recoveryRejectionRate, s.samples)
    && s.critical <= c.criticalFramesForRecovery
  }

  /** The last `n` elements of a history, or all of it. */
  function Last(h: seq<Sample>, n: nat): seq<Sample> {
    if |h| <= n then h else h[|h| - n..]
  }

  function Target(c: HealthConfig, s: Snapshot): StationState {
    if s.samples < c.minSamples then s.state
    else if s.state == Nominal then (if MustDegrade(c, s) then Degraded else Nominal)
    else (if MayRecover(c, s) then Nominal else Degraded)
  }

  function Record(c: HealthConfig, m: Memory, sample: Sample): (Memory, Option<Transition>) {
    if !c.enabled then (m, None)
    else
      var m1 := m.(window := Last(m.window + [sample], c.windowSize));
      var s := SnapshotOf(m1);
      var target := Target(c, s);
      if target == m.state then (m1, None)
      else (m1.(state := target), Some(Transition(m.state, target, s.(state := target))))
  }

  /** The memory after a whole history of samples. */
  function After(c: HealthConfig, h: seq<Sample>): Memory {
    if h == [] then Memory([], Nominal) else Record(c, After(c, h[..|h| - 1]), h[|h| - 1]).0
  }

  /** What the sample number `i` of a history triggers. */
  function TransitionAt(c: HealthConfig, h: seq<Sample>, i: nat): Option<Transition>
    requires i < |h|
  {
    Record(c, After(c, h[..i]), h[i]).1
  }

  // ---------------------------------------------------------------- The class

  class StationHealthMonitor {
    const config: HealthConfig
    var samples: seq<Sample>
    var state: StationState

    /** Only reached with a configuration that passed the checks of `MakeMonitor`. */
    constructor (config: HealthConfig)
      requires ValidConfig(config)
      ensures this.config == config && View() == Memory([], Nominal)
    {
      this.config := config;
      samples := [];
      state := Nominal;
    }

    ghost function View(): Memory
      reads this
    {
      Memory(samples, state)
    }

    method RecordDecoded(frame: TelemetryFrame) returns (t: Option<Transition>)
      requires ValidConfig(config)
      modifies this
      ensures (View(), t) == Record(config, old(View()), SampleOf(Parsed(frame)))
    {
      t := RecordSample(Sample(false, IsCriticalTelemetry(frame)));
    }

    method RecordRejected() returns (t: Option<Transition>)
      requires ValidConfig(config)
      modifies this
      ensures forall code :: (View(), t) == Record(config, old(View()), SampleOf(Rejected(code)))
    {
      t := RecordSample(Sample(true, false));
    }

    method RecordSample(sample: Sample) returns (t: Option<Transition>)
      requires ValidConfig(config)
      modifies this
      ensures (View(), t) == Record(config, old(View()), sample)
    {
      if !config.enabled {
        return None;
      }
      samples := samples + [sample];
      ghost var all := samples;
      while |samples| > config.windowSize
        invariant |samples| <= |all| && samples == all[|all| - |samples|..]
        invariant |all| >= config.windowSize ==> |samples| >= config.windowSize
        invariant |all| < config.windowSize ==> samples == all
        invariant state == old(state)
      {
        samples := samples[1..];
      }
      assert samples == Last(all, config.windowSize);
      var snapshot := MakeSnapshot();
      if snapshot.samples < config.minSamples {
        return None;
      }
      var target := state;
      if state == Nominal {
        if MustDegrade(config, snapshot) {
          target := Degraded;
        }
      } else {
        if MayRecover(config, snapshot) {
          target := Nominal;
        }
      }
      if target == state {
        return None;
      }
      t := Some(Transition(state, target, snapshot.(state := target)));
      state := target;
    }

    method MakeSnapshot() returns (s: Snapshot)
      ensures s == SnapshotOf(View())
    {
      var rejected, critical := 0, 0;
      for i := 0 to |samples|
        invariant rejected == RejectedIn(samples[..i]) && critical == CriticalIn(samples[..i])
      {
        assert samples[..i + 1][..i] == samples[..i];
        if samples[i].rejected {
          rejected := rejected + 1;
        }
        if samples[i].critical {
          critical := critical + 1;
        }
      }
      assert samples[..|samples|] == samples;
      s := Snapshot(state, |samples|, rejected, critical);
    }
  }

  /** The validating construction: `null` stands for the std::invalid_argument of the source. */
  method MakeMonitor(c: HealthConfig) returns (m: StationHealthMonitor?)
    ensures m != null <==>
              && 1 <= c.minSamples <= c.windowSize
              && 0.0 <= c.recoveryRejectionRate && c.degradedRejectionRate <= 1.0
              && c.recoveryRejectionRate <= c.degradedRejectionRate
              && c.criticalFramesForRecovery < c.criticalFramesForDegraded <= c.windowSize
    ensures m != null <==> ValidConfig(c)
    ensures m != null ==> fresh(m) && m.config == c && m.View() == Memory([], Nominal)
  {
    if c.windowSize == 0 {
      return null;
    }
    if c.minSamples == 0 {
      return null;
    }
    if c.minSamples > c.windowSize {
      return null;
    }
    if c.degradedRejectionRate < 0.0 || c.degradedRejectionRate > 1.0 {
      return null;
    }
    if c.recoveryRejectionRate < 0.0 || c.recoveryRejectionRate > 1.0 {
      return null;
    }
    if c.recoveryRejectionRate > c.degradedRejectionRate {
      return null;
    }
    if c.criticalFramesForDegraded == 0 {
      return null;
    }
    if c.criticalFramesForDegraded > c.windowSize {
      return null;
    }
    if c.criticalFramesForRecovery >= c.criticalFramesForDegraded {
      return null;
    }
    m := new StationHealthMonitor(c);
  }

  // ---------------------------------------------------------------- The window refines the history

  lemma {:induction false} WindowIsRecentHistory(c: HealthConfig, h: seq<Sample>)
    requires c.enabled
    ensures After(c, h).window == Last(h, c.windowSize)
  {
    hide Last, RejectedIn, CriticalIn, Target;
    EmptyLast(c.windowSize);
    if h != [] {
      var g := h[..|h| - 1];
      WindowIsRecentHistory(c, g);
      assert h == g + [h[|h| - 1]];
      LastOfLast(g, h[|h| - 1], c.windowSize);
    }
  }

  /** The monitor's counts are those of the last samples, and nothing happens before the minimum. */
  lemma {:induction false} CountsOfHistory(c: HealthConfig, h: seq<Sample>, i: nat)
    requires c.enabled && i < |h|
    ensures var w := Last(h[..i + 1], c.windowSize);
            && After(c, h[..i + 1]).window == w
            && (TransitionAt(c, h, i).Some? ==>
                  var s := TransitionAt(c, h, i).value.snapshot;
                  && s.samples == |w| >= c.minSamples && i + 1 >= c.minSamples
                  && s.rejected == RejectedIn(w) && s.critical == CriticalIn(w)
                  && s.state == TransitionAt(c, h, i).value.to == After(c, h[..i + 1]).state)
  {
    WindowIsRecentHistory(c, h[..i + 1]);
    assert h[..i + 1][..i] == h[..i];
  }

  lemma {:induction false} CountsDropFirst(w: seq<Sample>)
    requires w != []
    ensures RejectedIn(w[1..]) <= RejectedIn(w) <= RejectedIn(w[1..]) + 1
    ensures CriticalIn(w[1..]) <= CriticalIn(w) <= CriticalIn(w[1..]) + 1
  {
    if |w| > 1 {
      var v := w[..|w| - 1];
      CountsDropFirst(v);
      assert w[1..][..|w| - 2] == v[1..];
    }
  }

  /** One sample moves each count of the window by at most one. */
  lemma {:induction false} OneSampleMovesOne(h: seq<Sample>, n: nat, i: nat)
    requires i < |h| && n > 0
    ensures var a, b := Last(h[..i], n), Last(h[..i + 1], n);
            && -1 <= RejectedIn(b) - RejectedIn(a) <= 1
            && -1 <= CriticalIn(b) - CriticalIn(a) <= 1
            && (i + 1 <= n ==> RejectedIn(a) <= RejectedIn(b))
  {
    var a, b := Last(h[..i], n), Last(h[..i + 1], n);
    var longer := a + [h[i]];
    assert longer[..|a|] == a;
    assert h[..i + 1] == h[..i] + [h[i]];
    if i + 1 <= n {
      assert b == longer;
    } else {
      assert b == longer[1..];
      CountsDropFirst(longer);
    }
  }

  lemma {:induction false} CountsMoveSlowly(h: seq<Sample>, n: nat, i: nat, j: nat)
    requires i <= j <= |h| && n > 0
    ensures var a, b := Last(h[..i], n), Last(h[..j], n);
            && i - j <= RejectedIn(b) - RejectedIn(a) <= j - i
            && i - j <= CriticalIn(b) - CriticalIn(a) <= j - i
    decreases j - i
  {
    hide RejectedIn, CriticalIn, Last;
    if i < j {
      CountsMoveSlowly(h, n, i, j - 1);
      OneSampleMovesOne(h, n, j - 1);
    }
  }

  // ---------------------------------------------------------------- Dwell time

  ghost predicate Moves(c: HealthConfig, h: seq<Sample>, i: nat, to: StationState) {
    i < |h| && TransitionAt(c, h, i).Some? && TransitionAt(c, h, i).value.to == to
  }

  /** Whatever the direction, a transition says how its snapshot stands to the thresholds. */
  lemma {:induction false} MoveReason(c: HealthConfig, h: seq<Sample>, i: nat, to: StationState)
    requires c.enabled && Moves(c, h, i, to)
    ensures var s := TransitionAt(c, h, i).value.snapshot;
            if to == Degraded then MustDegrade(c, s) else MayRecover(c, s)
  {
    hide After, RejectedIn, CriticalIn, Last, Threshold;
  }

  /** Degrading on the critical count and recovering, in either order, takes the difference of the thresholds. */
  lemma {:induction false} CriticalDwell(c: HealthConfig, h: seq<Sample>, i: nat, j: nat)
    requires ValidConfig(c) && c.enabled && i < |h| && j < |h|
    requires Moves(c, h, i, Degraded) && Moves(c, h, j, Nominal)
    requires TransitionAt(c, h, i).value.snapshot.critical >= c.criticalFramesForDegraded
    ensures i < j ==> j - i >= c.criticalFramesForDegraded - c.criticalFramesForRecovery
    ensures j < i ==> i - j >= c.criticalFramesForDegraded - c.criticalFramesForRecovery
  {
    hide After, RejectedIn, CriticalIn, Last, Threshold, TransitionAt;
    CountsOfHistory(c, h, i);
    CountsOfHistory(c, h, j);
    MoveReason(c, h, j, Nominal);
    if i < j {
      CountsMoveSlowly(h, c.windowSize, i + 1, j + 1);
    } else {
      CountsMoveSlowly(h, c.windowSize, j + 1, i + 1);
    }
  }

  /** The size of the window after sample number `i`. */
  function SizeAt(c: HealthConfig, i: nat): nat { if i + 1 <= c.windowSize then i + 1 else c.windowSize }

  /** How many samples have left the window once `k` have come. */
  function Gone(n: nat, k: nat): nat { if k <= n then 0 else k - n }

  /** Rejections only leave the count with the samples that leave the window. */
  lemma {:induction false} RejectionsStay(h: seq<Sample>, n: nat, i: nat, j: nat)
    requires i <= j <= |h| && n > 0
    ensures RejectedIn(Last(h[..i], n)) <= RejectedIn(Last(h[..j], n)) + Gone(n, j) - Gone(n, i)
    decreases j - i
  {
    hide RejectedIn, CriticalIn, Last;
    if i < j {
      RejectionsStay(h, n, i, j - 1);
      OneSampleMovesOne(h, n, j - 1);
    }
  }

  /** A degradation for which the rejection rate is a reason, alone or with the critical count. */
  ghost predicate DegradesByRejection(c: HealthConfig, h: seq<Sample>, i: nat) {
    && Moves(c, h, i, Degraded)
    && var s := TransitionAt(c, h, i).value.snapshot;
       s.rejected as real >= Threshold(c.degradedRejectionRate, s.samples)
  }

  /** Where the rejection count stands when the rate triggers a transition. */
  lemma {:induction false} RateTrigger(c: HealthConfig, h: seq<Sample>, i: nat, to: StationState)
    requires ValidConfig(c) && c.enabled && Moves(c, h, i, to)
    requires to == Degraded ==> DegradesByRejection(c, h, i)
    ensures var n := RejectedIn(Last(h[..i + 1], c.windowSize)) as real;
            if to == Degraded then n >= Threshold(c.degradedRejectionRate, SizeAt(c, i))
            else n <= Threshold(c.recoveryRejectionRate, SizeAt(c, i))
  {
    hide After, RejectedIn, CriticalIn, Threshold, TransitionAt;
    CountsOfHistory(c, h, i);
    MoveReason(c, h, i, to);
  }

  /**
   For windows of any size: what the rates let the rejection count fall, or rise, has to come from
   samples that left the window, or from samples that came.
   */
  lemma {:induction false} RejectionDwellAnyWindow(c: HealthConfig, h: seq<Sample>, i: nat, j: nat)
    requires ValidConfig(c) && c.enabled && i < |h| && j < |h|
    requires DegradesByRejection(c, h, i) && Moves(c, h, j, Nominal)
    ensures var fall := Threshold(c.degradedRejectionRate, SizeAt(c, i)) - Threshold(c.recoveryRejectionRate, SizeAt(c, j));
            && (i < j ==> fall <= (Gone(c.windowSize, j + 1) - Gone(c.windowSize, i + 1)) as real)
            && (j < i ==> fall <= (i - j) as real)
  {
    hide DegradesByRejection, Moves, RejectedIn, CriticalIn, Last, Threshold, TransitionAt, SizeAt, Gone;
    DegradesIsMove(c, h, i);
    RateTrigger(c, h, i, Degraded);
    RateTrigger(c, h, j, Nominal);
    if i < j {
      RejectionsStay(h, c.windowSize, i + 1, j + 1);
    } else {
      CountsMoveSlowly(h, c.windowSize, j + 1, i + 1);
    }
  }

  lemma DegradesIsMove(c: HealthConfig, h: seq<Sample>, i: nat)
    requires DegradesByRejection(c, h, i)
    ensures Moves(c, h, i, Degraded)
  {
  }

  /** While the window grows no rejection leaves it: recovering takes enough samples to dilute them. */
  lemma {:induction false} GrowingWindowDwell(c: HealthConfig, h: seq<Sample>, i: nat, j: nat)
    requires ValidConfig(c) && c.enabled && i < j < |h| && j + 1 <= c.windowSize
    requires DegradesByRejection(c, h, i) && Moves(c, h, j, Nominal)
    ensures c.degradedRejectionRate * (i + 1) as real <= c.recoveryRejectionRate * (j + 1) as real
  {
    hide DegradesByRejection, Moves;
    RejectionDwellAnyWindow(c, h, i, j);
  }

  /** The distance between the two rejection thresholds, in samples of a full window. */
  function RateGap(c: HealthConfig): real {
    (c.degradedRejectionRate - c.recoveryRejectionRate) * c.windowSize as real
  }

  /** A rate of at most 1 takes no more of the missing samples than there are. */
  lemma SmallerWindow(rate: real, a: nat, n: nat)
    requires 0.0 <= rate <= 1.0 && a <= n
    ensures Threshold(rate, a) <= Threshold(rate, n) <= Threshold(rate, a) + (n - a) as real
  {
    hide Threshold;
    ThresholdSplit(rate, a, n);
    NoMoreThan(rate, (n - a) as real);
  }

  lemma ThresholdSplit(rate: real, a: nat, n: nat)
    requires a <= n
    ensures Threshold(rate, n) == Threshold(rate, a) + rate * (n - a) as real
  {
    SplitProduct(rate, a as real, (n - a) as real);
    assert a as real + (n - a) as real == n as real;
  }

  lemma SplitProduct(rate: real, x: real, y: real)
    ensures rate * (x + y) == rate * x + rate * y
  {
  }

  lemma NoMoreThan(rate: real, x: real)
    requires 0.0 <= rate <= 1.0 && x >= 0.0
    ensures 0.0 <= rate * x <= x
  {
  }

  /**
   Once the window is full, and be it only at the later of the two, degrading on the rejection rate
   and recovering are as far apart as the rates.
   */
  lemma {:induction false} RejectionDwell(c: HealthConfig, h: seq<Sample>, i: nat, j: nat)
    requires ValidConfig(c) && c.enabled && i < |h| && j < |h|
    requires DegradesByRejection(c, h, i) && Moves(c, h, j, Nominal)
    requires i + 1 >= c.windowSize || j + 1 >= c.windowSize
    ensures i < j ==> (j - i) as real >= RateGap(c)
    ensures j < i ==> (i - j) as real >= RateGap(c)
  {
    hide DegradesByRejection, Moves, Threshold;
    RejectionDwellAnyWindow(c, h, i, j);
    Distribute(c.degradedRejectionRate, c.recoveryRejectionRate, c.windowSize);
    SmallerWindow(c.degradedRejectionRate, SizeAt(c, i), c.windowSize);
    SmallerWindow(c.recoveryRejectionRate, SizeAt(c, j), c.windowSize);
  }

  /** Accepted options for the lemma below: a window of ten, rates 1 and 1/2. */
  const WIDE := HealthConfig(true, 10, 1, 1.0, 0.5, 10, 9)
  const BAD := Sample(true, false)
  const GOOD := Sample(false, false)

  lemma FirstRejectionDegrades()
    ensures After(WIDE, [BAD]) == Memory([BAD], Degraded) && Moves(WIDE, [BAD, GOOD], 0, Degraded)
  {
    assert [BAD, GOOD][..0] == [] && [BAD][..0] == [];
    assert [] + [BAD] == [BAD];
    assert After(WIDE, []) == Memory([], Nominal);
    assert RejectedIn([BAD]) == 1 && CriticalIn([BAD]) == 0;
    assert Record(WIDE, Memory([], Nominal), BAD).0 == Memory([BAD], Degraded);
  }

  lemma CountsOfTwo()
    ensures RejectedIn([BAD] + [GOOD]) == 1 && CriticalIn([BAD] + [GOOD]) == 0
  {
    assert ([BAD] + [GOOD])[..1] == [BAD] && [BAD][..0] == [];
  }

  /** Before the window is full a recovery can follow sooner: here after one sample instead of five. */
  lemma PartialWindowDwellsLess()
    ensures ValidConfig(WIDE) && RateGap(WIDE) == 5.0
    ensures Moves(WIDE, [BAD, GOOD], 0, Degraded) && Moves(WIDE, [BAD, GOOD], 1, Nominal)
  {
    hide After, RejectedIn, CriticalIn;
    FirstRejectionDegrades();
    CountsOfTwo();
    assert [BAD, GOOD][..1] == [BAD];
  }

  lemma EmptyLast(n: nat)
    ensures Last([], n) == []
  {
  }

  lemma LastOfLast(g: seq<Sample>, x: Sample, n: nat)
    ensures Last(Last(g, n) + [x], n) == Last(g + [x], n)
  {
  }

  lemma Distribute(d: real, r: real, n: nat)
    ensures (d - r) * n as real == Threshold(d, n) - Threshold(r, n)
  {
  }

  // ---------------------------------------------------------------- When the hysteresis is empty

  lemma ScaledOrder(a: real, b: real, n: nat)
    requires a <= b && n > 0
    ensures Threshold(a, n) <= Threshold(b, n)
    ensures Threshold(a, n) == Threshold(b, n) <==> a == b
  {
    Distribute(b, a, n);
    PositiveProduct(b - a, n as real);
  }

  lemma PositiveProduct(x: real, y: real)
    requires x >= 0.0 && y > 0.0
    ensures x * y >= 0.0
    ensures x * y == 0.0 <==> x == 0.0
  {
  }

  lemma ZeroThreshold(n: nat)
    ensures Threshold(0.0, n) == 0.0
  {
  }

  /** A snapshot asks to degrade and to recover at once exactly when both rates equal its rejection rate. */
  lemma {:induction false} BothAtOnce(c: HealthConfig, s: Snapshot)
    requires ValidConfig(c) && s.samples > 0
    ensures MustDegrade(c, s) && MayRecover(c, s)
       <==> && c.degradedRejectionRate == c.recoveryRejectionRate
            && s.rejected as real == Threshold(c.degradedRejectionRate, s.samples)
            && s.critical <= c.criticalFramesForRecovery
  {
    hide Threshold;
    ScaledOrder(c.recoveryRejectionRate, c.degradedRejectionRate, s.samples);
  }

  /** Distinct rates leave a dead band: no snapshot can flip the station both ways. */
  lemma {:induction false} HysteresisHolds(c: HealthConfig, s: Snapshot)
    requires ValidConfig(c) && s.samples > 0
    requires c.recoveryRejectionRate < c.degradedRejectionRate
    ensures !(MustDegrade(c, s) && MayRecover(c, s))
  {
    BothAtOnce(c, s);
  }

  function Repeat(s: Sample, n: nat): (h: seq<Sample>)
    ensures |h| == n && forall i :: 0 <= i < n ==> h[i] == s
  {
    seq(n, i => s)
  }

  /** Equal rates are accepted, and then the station can change state with every sample. */
  lemma {:induction false} EqualRatesFlap(n: nat)
    ensures var c := HealthConfig(true, 1, 1, 0.0, 0.0, 1, 0);
            && ValidConfig(c)
            && After(c, Repeat(Sample(false, false), n)).state == if n % 2 == 0 then Nominal else Degraded
  {
    hide After, Threshold;
    var c := HealthConfig(true, 1, 1, 0.0, 0.0, 1, 0);
    var good := Sample(false, false);
    if n > 0 {
      EqualRatesFlap(n - 1);
      var h := Repeat(good, n);
      assert h[..n - 1] == Repeat(good, n - 1);
      UniformWindow(c, h, good);
      ZeroThreshold(1);
    } else {
      EmptyHistory(c);
    }
  }

  lemma EmptyHistory(c: HealthConfig)
    ensures After(c, []) == Memory([], Nominal)
  {
  }

  // ---------------------------------------------------------------- A uniform window decides the state

  lemma {:induction false} UniformCounts(w: seq<Sample>, s: Sample)
    requires forall i :: 0 <= i < |w| ==> w[i] == s
    ensures RejectedIn(w) == if s.rejected then |w| else 0
    ensures CriticalIn(w) == if s.critical then |w| else 0
  {
    if w != [] {
      UniformCounts(w[..|w| - 1], s);
    }
  }

  lemma {:induction false} UniformWindow(c: HealthConfig, h: seq<Sample>, s: Sample)
    requires ValidConfig(c) && c.enabled && |h| >= c.windowSize
    requires forall i :: |h| - c.windowSize <= i < |h| ==> h[i] == s
    ensures var m := After(c, h[..|h| - 1]);
            var snap := Snapshot(m.state, c.windowSize, if s.rejected then c.windowSize else 0,
                                 if s.critical then c.windowSize else 0);
            After(c, h).state == Target(c, snap)
  {
    hide MustDegrade, MayRecover, RejectedIn, CriticalIn;
    WindowIsRecentHistory(c, h);
    WindowIsRecentHistory(c, h[..|h| - 1]);
    UniformCounts(Last(h, c.windowSize), s);
    var g := h[..|h| - 1];
    assert h == g + [h[|h| - 1]];
    LastOfLast(g, h[|h| - 1], c.windowSize);
  }

  /** A window of good frames ends in NOMINAL, unless the degradation rate is zero: then the state flips. */
  lemma {:induction false} GoodWindow(c: HealthConfig, h: seq<Sample>)
    requires ValidConfig(c) && c.enabled && |h| >= c.windowSize
    requires forall i :: |h| - c.windowSize <= i < |h| ==> h[i] == Sample(false, false)
    ensures After(c, h).state == Nominal
       <==> c.degradedRejectionRate > 0.0 || After(c, h[..|h| - 1]).state == Degraded
  {
    hide After, Threshold;
    UniformWindow(c, h, Sample(false, false));
    ZeroThreshold(c.windowSize);
    ScaledOrder(0.0, c.degradedRejectionRate, c.windowSize);
    ScaledOrder(0.0, c.recoveryRejectionRate, c.windowSize);
  }

  /** A window of critical frames always ends in DEGRADED. */
  lemma {:induction false} CriticalWindow(c: HealthConfig, h: seq<Sample>)
    requires ValidConfig(c) && c.enabled && |h| >= c.windowSize
    requires forall i :: |h| - c.windowSize <= i < |h| ==> h[i] == Sample(false, true)
    ensures After(c, h).state == Degraded
  {
    hide After;
    UniformWindow(c, h, Sample(false, true));
  }

  /** A disabled monitor never leaves NOMINAL. */
  lemma {:induction false} DisabledIsInert(c: HealthConfig, h: seq<Sample>)
    requires !c.enabled
    ensures After(c, h) == Memory([], Nominal)
  {
    if h != [] {
      DisabledIsInert(c, h[..|h| - 1]);
    }
  }
}
