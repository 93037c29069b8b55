/**
 Exactly when the two rejection rates of the health monitor (src/StationHealth.cpp) keep a
 degradation and the recovery after it (degraded rate - recovery rate) * windowSize samples apart.
 */
module DwellTime {
  import opened Bytes
  import opened StationHealth

  /** In every history the distance is kept. */
  ghost predicate KeepsDistance(c: HealthConfig) {
    forall h: seq<Sample>, i: nat, j: nat ::
      i < j < |h| && DegradesByRejection(c, h, i) && Moves(c, h, j, Nominal) ==> (j - i) as real >= RateGap(c)
  }

  /**
   Before the window is full, at size `a`, `k` rejections are enough to degrade, and at size `b` few
   enough to recover, though `b` follows too soon.
   */
  predicate ShortCut(c: HealthConfig, a: nat, b: nat, k: nat) {
    && c.minSamples <= a < b <= c.windowSize && k <= a
    && Threshold(c.degradedRejectionRate, a) <= k as real <= Threshold(c.recoveryRejectionRate, b)
    && (b - a) as real < RateGap(c)
  }

  // ---------------------------------------------------------------- A distance not kept shows a short cut

  lemma {:induction false} ShortDistance(c: HealthConfig, h: seq<Sample>, i: nat, j: nat) returns (k: nat)
    requires ValidConfig(c) && c.enabled && i < j < |h|
    requires DegradesByRejection(c, h, i) && Moves(c, h, j, Nominal)
    requires (j - i) as real < RateGap(c)
    ensures ShortCut(c, i + 1, j + 1, k)
  {
    hide RejectedIn, CriticalIn, Threshold, After, TransitionAt, RateGap, DegradesByRejection;
    if j + 1 >= c.windowSize {
      RejectionDwell(c, h, i, j);
      assert false;
    } else {
      k := RejectedIn(Last(h[..i + 1], c.windowSize));
      DegradesIsMove(c, h, i);
      CountsOfHistory(c, h, i);
      RateTrigger(c, h, i, Degraded);
      RateTrigger(c, h, j, Nominal);
      RejectionsStay(h, c.windowSize, i + 1, j + 1);
    }
  }

  // ---------------------------------------------------------------- A short cut can be taken

  /** Some good frames, some rejected ones, and good ones again. */
  function Mixed(g: nat, k: nat, t: nat): (h: seq<Sample>)
    ensures |h| == g + k + t
    ensures forall i :: 0 <= i < |h| ==> h[i] == if g <= i < g + k then BAD else GOOD
  {
    Repeat(GOOD, g) + Repeat(BAD, k) + Repeat(GOOD, t)
  }

  function BadAmong(g: nat, k: nat, x: nat): nat {
    if x <= g then 0 else if x <= g + k then x - g else k
  }

  lemma {:induction false} MixedCounts(g: nat, k: nat, t: nat, x: nat)
    requires x <= g + k + t
    ensures RejectedIn(Mixed(g, k, t)[..x]) == BadAmong(g, k, x) && CriticalIn(Mixed(g, k, t)[..x]) == 0
    decreases x
  {
    hide Mixed;
    var h := Mixed(g, k, t);
    if x > 0 {
      MixedCounts(g, k, t, x - 1);
      assert h[..x][..x - 1] == h[..x - 1] && h[..x][x - 1] == h[x - 1];
    }
  }

  /** The snapshot of a window that holds the whole history. */
  function SnapshotAt(c: HealthConfig, h: seq<Sample>, x: nat): Snapshot
    requires x < |h|
  {
    Snapshot(After(c, h[..x]).state, x + 1, RejectedIn(h[..x + 1]), CriticalIn(h[..x + 1]))
  }

  /** What sample number `x` does while the window grows. */
  lemma {:induction false} GrowingStep(c: HealthConfig, h: seq<Sample>, x: nat)
    requires c.enabled && x < |h| && x + 1 <= c.windowSize
    ensures var before, now := After(c, h[..x]).state, Target(c, SnapshotAt(c, h, x));
            && After(c, h[..x + 1]).state == now
            && (before != now ==> Moves(c, h, x, now))
            && (before != now && now == Degraded
                && RejectedIn(h[..x + 1]) as real >= Threshold(c.degradedRejectionRate, x + 1) ==>
                  DegradesByRejection(c, h, x))
  {
    hide RejectedIn, CriticalIn, Threshold, MustDegrade, MayRecover;
    WindowIsRecentHistory(c, h[..x]);
    WindowIsRecentHistory(c, h[..x + 1]);
    assert h[..x + 1][..x] == h[..x];
  }

  /** No size up to `n` degrades a history without critical frames. */
  ghost predicate QuietUpTo(c: HealthConfig, h: seq<Sample>, n: nat) {
    && n <= |h| && n <= c.windowSize
    && forall x: nat :: 0 < x <= n ==>
         && CriticalIn(h[..x]) == 0
         && (x >= c.minSamples ==> (RejectedIn(h[..x]) as real) < Threshold(c.degradedRejectionRate, x))
  }

  lemma {:induction false} QuietIsNominal(c: HealthConfig, h: seq<Sample>, n: nat)
    requires ValidConfig(c) && c.enabled && QuietUpTo(c, h, n)
    ensures After(c, h[..n]).state == Nominal
    decreases n
  {
    hide RejectedIn, CriticalIn, Threshold, After;
    if n == 0 {
      EmptyHistory(c);
      assert h[..0] == [];
    } else {
      QuietIsNominal(c, h, n - 1);
      GrowingStep(c, h, n - 1);
    }
  }

  /** A degraded station recovers by the time the window of size `b` allows it. */
  lemma {:induction false} RecoversBy(c: HealthConfig, h: seq<Sample>, x: nat, b: nat) returns (j: nat)
    requires ValidConfig(c) && c.enabled && c.minSamples <= x < b <= |h| && b <= c.windowSize
    requires After(c, h[..x]).state == Degraded
    requires RejectedIn(h[..b]) as real <= Threshold(c.recoveryRejectionRate, b) && CriticalIn(h[..b]) == 0
    ensures x <= j < b && Moves(c, h, j, Nominal)
    decreases b - x
  {
    hide RejectedIn, CriticalIn, Threshold, After, Moves;
    GrowingStep(c, h, x);
    if Target(c, SnapshotAt(c, h, x)) == Nominal {
      j := x;
    } else {
      j := RecoversBy(c, h, x + 1, b);
    }
  }

  /** Taking away `d` rejections and as many samples leaves a short cut a short cut. */
  lemma EarlierShortCut(c: HealthConfig, a: nat, b: nat, k: nat, x: nat)
    requires ValidConfig(c) && ShortCut(c, a, b, k) && c.minSamples <= x < a && a - x <= k
    requires Threshold(c.degradedRejectionRate, x) <= (k - (a - x)) as real
    ensures ShortCut(c, x, b - (a - x), k - (a - x))
  {
    hide Threshold, RateGap;
    SmallerWindow(c.recoveryRejectionRate, b - (a - x), b);
  }

  lemma PositiveRate(c: HealthConfig, a: nat, b: nat, k: nat)
    requires ValidConfig(c) && ShortCut(c, a, b, k)
    ensures forall x: nat :: x > 0 ==> Threshold(c.degradedRejectionRate, x) > 0.0
  {
    var d := c.degradedRejectionRate;
    if d == 0.0 {
      NoGap(c);
      assert false;
    } else {
      forall x: nat | x > 0
        ensures Threshold(d, x) > 0.0
      {
        PositiveProduct(d, x as real);
      }
    }
  }

  lemma NoGap(c: HealthConfig)
    requires ValidConfig(c) && c.degradedRejectionRate == 0.0
    ensures RateGap(c) == 0.0
  {
  }

  /** Every short cut is taken by some history: of the sizes that degrade, the first one counts. */
  lemma {:induction false} TakeShortCut(c: HealthConfig, a: nat, b: nat, k: nat)
    returns (h: seq<Sample>, i: nat, j: nat)
    requires ValidConfig(c) && c.enabled && ShortCut(c, a, b, k)
    ensures i < j < |h| && DegradesByRejection(c, h, i) && Moves(c, h, j, Nominal) && (j - i) as real < RateGap(c)
    decreases a
  {
    hide Threshold, After, RejectedIn, CriticalIn, Mixed, RateGap, DegradesByRejection, Moves;
    PositiveRate(c, a, b, k);
    if x: nat :| c.minSamples <= x < a && a - x <= k && Threshold(c.degradedRejectionRate, x) <= (k - (a - x)) as real {
      EarlierShortCut(c, a, b, k, x);
      h, i, j := TakeShortCut(c, x, b - (a - x), k - (a - x));
    } else {
      h, i := Mixed(a - k, k, b - a), a - 1;
      forall x: nat | 0 < x <= a - 1
        ensures CriticalIn(h[..x]) == 0
        ensures x >= c.minSamples ==> (RejectedIn(h[..x]) as real) < Threshold(c.degradedRejectionRate, x)
      {
        MixedCounts(a - k, k, b - a, x);
      }
      QuietIsNominal(c, h, a - 1);
      MixedCounts(a - k, k, b - a, a);
      MixedCounts(a - k, k, b - a, b);
      GrowingStep(c, h, a - 1);
      j := RecoversBy(c, h, a, b);
    }
  }

  // ---------------------------------------------------------------- The exact condition

  /**
   The distance is kept in every history exactly when the configuration has no short cut: finitely
   many sizes and counts to look at before the monitor is built.
   */
  lemma DistanceIsKeptExactly(c: HealthConfig)
    requires ValidConfig(c) && c.enabled
    ensures KeepsDistance(c) <==> forall a: nat, b: nat, k: nat :: !ShortCut(c, a, b, k)
  {
    hide ShortCut, DegradesByRejection, Moves, RateGap;
    if KeepsDistance(c) {
      forall a: nat, b: nat, k: nat
        ensures !ShortCut(c, a, b, k)
      {
        if ShortCut(c, a, b, k) {
          var h, i, j := TakeShortCut(c, a, b, k);
          assert false;
        }
      }
    } else {
      var h: seq<Sample>, i: nat, j: nat :|
        i < j < |h| && DegradesByRejection(c, h, i) && Moves(c, h, j, Nominal) && !((j - i) as real >= RateGap(c));
      var k := ShortDistance(c, h, i, j);
    }
  }

  // ---------------------------------------------------------------- Simple sufficient conditions

  lemma Scale(x: real, y: real, z: real)
    requires x <= y && z >= 0.0
    ensures x * z <= y * z
  {
  }

  /** Dilution is slow when the recovery rate is small against the samples waited for. */
  lemma PatienceLeavesNoShortCut(c: HealthConfig, a: nat, b: nat, k: nat)
    requires ValidConfig(c) && c.minSamples as real >= Threshold(c.recoveryRejectionRate, c.windowSize)
    ensures !ShortCut(c, a, b, k)
  {
    if ShortCut(c, a, b, k) {
      PositiveRate(c, a, b, k);
      var d, r, w := c.degradedRejectionRate, c.recoveryRejectionRate, c.windowSize as real;
      Dilution(d, r, w, a as real, b as real);
      assert false;
    }
  }

  lemma Dilution(d: real, r: real, w: real, a: real, b: real)
    requires 0.0 <= r <= d && a > 0.0 && b > a
    requires a >= r * w && d * a <= r * b
    requires d * a > 0.0
    ensures b - a >= (d - r) * w
  {
    if r == 0.0 {
      assert false;
    }
    assert (d - r) * a <= r * (b - a) by {
      assert (d - r) * a == d * a - r * a;
      assert r * (b - a) == r * b - r * a;
    }
    Scale(r * w, a, d - r);
    Regroup(r, w, d - r);
    assert r * ((d - r) * w) <= (d - r) * a;
    CancelFactor(r, (d - r) * w, b - a);
  }

  lemma Regroup(e: real, w: real, x: real)
    ensures (e * w) * x == e * (x * w)
  {
  }

  lemma ScaleStrictly(r: real, x: real, y: real)
    requires r > 0.0 && x > y
    ensures r * x > r * y
  {
    PositiveProduct(r, x - y);
    assert r * (x - y) == r * x - r * y;
  }

  lemma CancelFactor(r: real, x: real, y: real)
    requires r > 0.0 && r * x <= r * y
    ensures x <= y
  {
    if x > y {
      ScaleStrictly(r, x, y);
      assert false;
    }
  }

  /** If minSamples reaches recoveryRate * windowSize, every recovery keeps its distance. */
  lemma PatientRecovery(c: HealthConfig)
    requires ValidConfig(c) && c.enabled
    requires c.minSamples as real >= Threshold(c.recoveryRejectionRate, c.windowSize)
    ensures KeepsDistance(c)
  {
    hide ShortCut, KeepsDistance, Threshold;
    DistanceIsKeptExactly(c);
    forall a: nat, b: nat, k: nat
      ensures !ShortCut(c, a, b, k)
    {
      PatienceLeavesNoShortCut(c, a, b, k);
    }
  }

  lemma Refill(d: real, r: real, w: real, a: real, b: real)
    requires 0.0 <= r <= d <= 1.0 && 0.0 < b < a
    requires b >= (1.0 - d) * w && d * a - r * b <= a - b
    ensures a - b >= (d - r) * w
  {
    if d < 1.0 {
      var e := 1.0 - d;
      assert (d - r) * b <= e * (a - b) by {
        assert (d - r) * b == d * b - r * b;
        assert e * (a - b) == (a - b) - (d * a - d * b);
      }
      Scale(e * w, b, d - r);
      Regroup(e, w, d - r);
      assert e * ((d - r) * w) <= (d - r) * b;
      CancelFactor(e, (d - r) * w, a - b);
    } else if r < 1.0 {
      ScaleStrictly(b, 1.0, r);
      assert false;
    }
  }

  /**
   Waiting for enough samples keeps the distance: for the recovery after a degradation it is enough
   to wait for recoveryRate * windowSize, for a degradation after a recovery for
   (1 - degradedRate) * windowSize.
   */
  lemma {:induction false} PatientDwell(c: HealthConfig, h: seq<Sample>, i: nat, j: nat)
    requires ValidConfig(c) && c.enabled && i < |h| && j < |h|
    requires DegradesByRejection(c, h, i) && Moves(c, h, j, Nominal)
    ensures i < j && c.minSamples as real >= Threshold(c.recoveryRejectionRate, c.windowSize) ==>
              (j - i) as real >= RateGap(c)
    ensures j < i && c.minSamples as real >= Threshold(1.0 - c.degradedRejectionRate, c.windowSize) ==>
              (i - j) as real >= RateGap(c)
  {
    hide RejectedIn, CriticalIn, TransitionAt, After, Last, DegradesByRejection;
    if i < j {
      if c.minSamples as real >= Threshold(c.recoveryRejectionRate, c.windowSize) {
        PatientRecovery(c);
      }
    } else if i + 1 >= c.windowSize {
      RejectionDwell(c, h, i, j);
    } else if j < i && c.minSamples as real >= Threshold(1.0 - c.degradedRejectionRate, c.windowSize) {
      CountsOfHistory(c, h, j);
      RejectionDwellAnyWindow(c, h, i, j);
      Refill(c.degradedRejectionRate, c.recoveryRejectionRate, c.windowSize as real, (i + 1) as real, (j + 1) as real);
    }
  }
}
