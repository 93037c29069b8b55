/**
 Why things happened: which throw a stored error stands for, that no throw goes unreported, and
 what has stopped the input (apps/ground_station/GroundStationPipeline.cpp).
 */
module PipelineCauses {
  import opened Bytes
  import opened FrameCodec
  import opened OrderedWriter
  import opened Pipeline
  import opened PipelineInvariant
  import opened PipelineProgress

  /** What one statement of failPipeline leaves of the fields it may change. */
  lemma FailStepEffect(s: State, stage: Stage, f: Failure)
    ensures var n := FailStep(s, stage, f);
            && n == s.(error := n.error, running := n.running, rawClosed := n.rawClosed, queueClosed := n.queueClosed)
            && n.error == (if stage == Capturing && s.error.None? then Some(f) else s.error)
            && n.running == (s.running && stage != Stopping)
  {
  }

  // ---------------------------------------------------------------- From the error back to the throw

  /** The step is a throw of the thread that the failure names. */
  predicate IsThrowOf(l: Label, f: Failure) {
    match f
    case InputFailed => l == Main(InputThrows)
    case DecoderFailed => l.Decoder? && l.d == DecoderThrows
    case OutputFailed => l.Writer? && (l.w.TreatThrows? || l.w == ParkThrows || l.w == FinishThrows)
    case Duplicate => false
    case Gap => false
  }

  ghost predicate Thrown(labels: seq<Label>, n: nat, f: Failure)
    requires n <= |labels|
  {
    exists i :: 0 <= i < n && IsThrowOf(labels[i], f)
  }

  /** Whoever reports an error has thrown it, or reports a check of the writer. */
  ghost predicate Accounted(labels: seq<Label>, n: nat, s: State)
    requires n <= |labels|
  {
    && (s.main.MainFailing? ==> Thrown(labels, n, InputFailed))
    && (forall i :: 0 <= i < |s.decoders| && s.decoders[i].DecoderFailing? ==> Thrown(labels, n, DecoderFailed))
    && (s.writer.WriterFailing? && s.writer.failure !in {Gap, Duplicate} ==> Thrown(labels, n, s.writer.failure))
    && (s.error.Some? && s.error.value !in {Gap, Duplicate} ==> Thrown(labels, n, s.error.value))
  }

  lemma ThrownStays(labels: seq<Label>, n: nat, f: Failure)
    requires n < |labels|
    ensures Thrown(labels, n, f) ==> Thrown(labels, n + 1, f)
    ensures IsThrowOf(labels[n], f) ==> Thrown(labels, n + 1, f)
  {
  }

  lemma AllStay(labels: seq<Label>, n: nat)
    requires n < |labels|
    ensures forall f: Failure :: Thrown(labels, n, f) ==> Thrown(labels, n + 1, f)
    ensures forall f: Failure :: IsThrowOf(labels[n], f) ==> Thrown(labels, n + 1, f)
  {
    hide Thrown, IsThrowOf;
    forall f: Failure
      ensures Thrown(labels, n, f) ==> Thrown(labels, n + 1, f)
      ensures IsThrowOf(labels[n], f) ==> Thrown(labels, n + 1, f)
    {
      ThrownStays(labels, n, f);
    }
  }

  lemma MainIsAccounted(c: Config, labels: seq<Label>, n: nat, s: State, a: MainAct)
    requires n < |labels| && labels[n] == Main(a) && MainEnabled(c, s, a) && Accounted(labels, n, s)
    ensures Accounted(labels, n + 1, MainApply(c, s, a))
  {
    hide Thrown, AllExited, FailStep;
    AllStay(labels, n);
    if a == MainFails {
      FailStepEffect(s, s.main.stage, InputFailed);
    }
    assert a == InputThrows ==> IsThrowOf(labels[n], InputFailed);
  }

  lemma DecoderIsAccounted(c: Config, labels: seq<Label>, n: nat, s: State, i: nat, a: DecoderAct)
    requires n < |labels| && labels[n] == Decoder(i, a) && DecoderEnabled(c, s, i, a) && Accounted(labels, n, s)
    ensures Accounted(labels, n + 1, DecoderApply(c, s, i, a))
  {
    hide Thrown, Held, HasRoom, DecodeFrame, FailStep;
    AllStay(labels, n);
    if a == DecoderFails {
      FailStepEffect(s, s.decoders[i].stage, DecoderFailed);
    }
    assert a == DecoderThrows ==> IsThrowOf(labels[n], DecoderFailed);
  }

  lemma WriterIsAccounted(c: Config, labels: seq<Label>, n: nat, s: State, a: WriterAct)
    requires n < |labels| && labels[n] == Writer(a) && WriterEnabled(s, a) && Accounted(labels, n, s)
    ensures Accounted(labels, n + 1, WriterApply(c, s, a))
  {
    hide Thrown, IsThrowOf, Process, Park, Interrupted, FailStep;
    AllStay(labels, n);
    if a.TreatThrows? || a == ParkThrows || a == FinishThrows {
      OutputThrow(labels[n]);
    } else if a == WriterFails {
      FailStepEffect(s, s.writer.stage, s.writer.failure);
    }
  }

  lemma OutputThrow(l: Label)
    requires l.Writer? && (l.w.TreatThrows? || l.w == ParkThrows || l.w == FinishThrows)
    ensures IsThrowOf(l, OutputFailed)
  {
  }

  lemma StepIsAccounted(c: Config, labels: seq<Label>, n: nat, s: State)
    requires n < |labels| && Enabled(c, s, labels[n]) && Accounted(labels, n, s)
    ensures Accounted(labels, n + 1, Apply(c, s, labels[n]))
  {
    hide Thrown, MainEnabled, DecoderEnabled, WriterEnabled, MainApply, DecoderApply, WriterApply;
    match labels[n] {
      case Main(a) => MainIsAccounted(c, labels, n, s, a);
      case Decoder(i, a) => DecoderIsAccounted(c, labels, n, s, i, a);
      case Writer(a) => WriterIsAccounted(c, labels, n, s, a);
      case StopRequested => AllStay(labels, n);
    }
  }

  lemma {:induction false} RunIsAccounted(c: Config, labels: seq<Label>, trace: seq<State>, n: nat)
    requires IsRun(c, labels, trace) && n < |trace|
    ensures Accounted(labels, n, trace[n])
  {
    hide Enabled, Apply;
    if n > 0 {
      RunIsAccounted(c, labels, trace, n - 1);
      assert Enabled(c, trace[n - 1], labels[n - 1]) && trace[n - 1 + 1] == Apply(c, trace[n - 1], labels[n - 1]);
      StepIsAccounted(c, labels, n - 1, trace[n - 1]);
    }
  }

  /** A stored error is that of a thread which has thrown before: the input, a decoder or the output. */
  lemma ErrorHasItsCause(c: Config, labels: seq<Label>, trace: seq<State>, n: nat)
    requires IsRun(c, labels, trace) && n < |trace| && trace[n].error.Some?
    ensures exists i :: 0 <= i < n && IsThrowOf(labels[i], trace[n].error.value)
  {
    hide IsRun, IsThrowOf;
    ReachableInv(c, labels, trace, n);
    RunLength(c, labels, trace);
    RunIsAccounted(c, labels, trace, n);
    assert NoFalseAlarm(trace[n]);
  }

  lemma RunLength(c: Config, labels: seq<Label>, trace: seq<State>)
    requires IsRun(c, labels, trace)
    ensures |trace| == |labels| + 1
  {
  }

  // ---------------------------------------------------------------- From the throw to the error

  ghost predicate SomethingThrew(labels: seq<Label>, n: nat)
    requires n <= |labels|
  {
    exists i :: 0 <= i < n && Throws(labels[i])
  }

  /** An error is stored, or some thread is about to store one. */
  ghost predicate Reported(s: State) {
    || s.error.Some?
    || s.main == MainFailing(Capturing)
    || (exists i :: 0 <= i < |s.decoders| && s.decoders[i] == DecoderFailing(Capturing))
    || (s.writer.WriterFailing? && s.writer.stage == Capturing)
  }

  lemma MainReports(c: Config, s: State, a: MainAct)
    requires MainEnabled(c, s, a) && (Reported(s) || a == InputThrows)
    ensures Reported(MainApply(c, s, a))
  {
    hide AllExited, HasRoom, FailStep;
    if a == MainFails {
      FailStepEffect(s, s.main.stage, InputFailed);
    }
  }

  lemma DecoderReports(c: Config, s: State, i: nat, a: DecoderAct)
    requires DecoderEnabled(c, s, i, a) && (Reported(s) || a == DecoderThrows)
    ensures Reported(DecoderApply(c, s, i, a))
  {
    hide Held, HasRoom, DecodeFrame, FailStep;
    var n := DecoderApply(c, s, i, a);
    if a == DecoderFails {
      FailStepEffect(s, s.decoders[i].stage, DecoderFailed);
    }
    if a == DecoderThrows {
      assert n.decoders[i] == DecoderFailing(Capturing);
    } else if j :| 0 <= j < |s.decoders| && s.decoders[j] == DecoderFailing(Capturing) {
      assert j != i ==> n.decoders[j] == DecoderFailing(Capturing);
    }
  }

  lemma WriterReports(c: Config, s: State, a: WriterAct)
    requires WriterEnabled(s, a) && (Reported(s) || Throws(Writer(a)))
    ensures Reported(WriterApply(c, s, a))
  {
    hide Process, Park, Interrupted, FailStep;
    if a == WriterFails {
      FailStepEffect(s, s.writer.stage, s.writer.failure);
    }
  }

  lemma {:induction false} ThrowIsReported(c: Config, labels: seq<Label>, trace: seq<State>, n: nat)
    requires IsRun(c, labels, trace) && n < |trace| && SomethingThrew(labels, n)
    ensures Reported(trace[n])
  {
    hide MainEnabled, DecoderEnabled, WriterEnabled, MainApply, DecoderApply, WriterApply, Reported;
    assert n > 0;
    var s, l := trace[n - 1], labels[n - 1];
    assert Enabled(c, s, l) && trace[n - 1 + 1] == Apply(c, s, l);
    if !Throws(l) {
      ThrowIsReported(c, labels, trace, n - 1);
    }
    match l {
      case Main(a) => MainReports(c, s, a);
      case Decoder(i, a) => DecoderReports(c, s, i, a);
      case Writer(a) => WriterReports(c, s, a);
      case StopRequested => StopReports(s);
    }
  }

  lemma StopReports(s: State)
    requires Reported(s)
    ensures Reported(s.(running := false, stopRequested := true))
  {
  }

  lemma ReportedAtTheEnd(s: State)
    requires Ordered(s) && Finished(s)
    ensures Reported(s) <==> s.main == Rethrown
  {
  }

  /**
   run() throws exactly when something threw in one of its threads, and what it throws is one of
   the exceptions that were thrown.
   */
  lemma RethrowsExactlyThrows(c: Config, labels: seq<Label>, trace: seq<State>, n: nat)
    requires IsRun(c, labels, trace) && n < |trace| && Finished(trace[n])
    ensures trace[n].main == Rethrown <==> exists i :: 0 <= i < n && Throws(labels[i])
    ensures trace[n].main == Rethrown ==>
              trace[n].error.Some? && exists i :: 0 <= i < n && IsThrowOf(labels[i], trace[n].error.value)
  {
    hide IsRun, IsThrowOf, Throws, Reported;
    ReachableInv(c, labels, trace, n);
    RunLength(c, labels, trace);
    assert Ordered(trace[n]);
    ReportedAtTheEnd(trace[n]);
    if SomethingThrew(labels, n) {
      ThrowIsReported(c, labels, trace, n);
    }
    if trace[n].main == Rethrown {
      ErrorHasItsCause(c, labels, trace, n);
      var i :| 0 <= i < n && IsThrowOf(labels[i], trace[n].error.value);
      ThrowOfThrows(labels[i], trace[n].error.value);
    }
  }

  lemma ThrowOfThrows(l: Label, f: Failure)
    requires IsThrowOf(l, f)
    ensures Throws(l)
  {
  }

  // ---------------------------------------------------------------- Every thread can be the cause

  /**
   Where the source lets something throw: while the input is read or offered, in a decoder between
   pops and pushes, and in the writer while it parks, treats or finishes.
   */
  predicate MayThrowAt(s: State, l: Label) {
    || (l == Main(InputThrows) && (s.main == Receiving || s.main.Pushing?))
    || (l.Decoder? && l.d == DecoderThrows && l.i < |s.decoders| && s.decoders[l.i] != DecoderExited
        && !s.decoders[l.i].DecoderFailing?)
    || (l == Writer(ParkThrows) && s.writer == Awaiting && s.queue != [])
    || (l.Writer? && l.w.TreatThrows? && s.writer == Draining && s.books.expected in s.books.pending)
    || (l == Writer(FinishThrows) && s.writer == Finishing)
  }

  lemma MayThrowIsEnabled(c: Config, s: State, l: Label)
    requires MayThrowAt(s, l)
    ensures Enabled(c, s, l) && Throws(l)
  {
  }

  /** A run up to state `n`, one more step, and what was found to follow. */
  lemma JoinRuns(c: Config, labels: seq<Label>, trace: seq<State>, n: nat, l: Label, ls: seq<Label>, ts: seq<State>)
    requires IsRun(c, labels, trace) && n < |trace| && Enabled(c, trace[n], l)
    requires |ts| == |ls| + 1 && ts[0] == Apply(c, trace[n], l)
    requires forall i :: 0 <= i < |ls| ==> Enabled(c, ts[i], ls[i]) && ts[i + 1] == Apply(c, ts[i], ls[i])
    ensures n <= |labels| && IsRun(c, labels[..n] + [l] + ls, trace[..n + 1] + ts)
  {
    hide Enabled, Apply;
    var labels', trace' := labels[..n] + [l] + ls, trace[..n + 1] + ts;
    forall i | 0 <= i < |labels'|
      ensures Enabled(c, trace'[i], labels'[i]) && trace'[i + 1] == Apply(c, trace'[i], labels'[i])
    {
      if i < n {
        assert labels'[i] == labels[i] && trace'[i] == trace[i] && trace'[i + 1] == trace[i + 1];
      } else if i > n {
        var k := i - n - 1;
        assert labels'[i] == ls[k] && trace'[i] == ts[k] && trace'[i + 1] == ts[k + 1];
      }
    }
  }

  /** As long as nothing has thrown, a throw wherever one is possible can be what run() reports. */
  lemma ThrowCanEndTheRun(c: Config, labels: seq<Label>, trace: seq<State>, n: nat, l: Label)
    returns (labels': seq<Label>, trace': seq<State>)
    requires ValidOptions(c) && IsRun(c, labels, trace) && n < |trace|
    requires (forall i :: 0 <= i < n ==> !Throws(labels[i])) && MayThrowAt(trace[n], l)
    ensures IsRun(c, labels', trace') && |labels'| > n && labels'[..n] == labels[..n] && labels'[n] == l
    ensures var s := trace'[|labels'|];
            s.main == Rethrown && s.error.Some? && IsThrowOf(l, s.error.value)
  {
    hide Inv, Enabled, Apply, Throws, IsThrowOf, MayThrowAt, IsRun, Peaceful;
    MayThrowIsEnabled(c, trace[n], l);
    ReachableInv(c, labels, trace, n);
    StepKeepsInv(c, trace[n], l);
    InvBoundsNext(c, Apply(c, trace[n], l));
    var ls, ts := FinishFrom(c, Apply(c, trace[n], l));
    forall i | 0 <= i < |ls|
      ensures Enabled(c, ts[i], ls[i]) && ts[i + 1] == Apply(c, ts[i], ls[i]) && !Throws(ls[i])
    {
      assert Peaceful(c, ts[i], ls[i], ts[i + 1]);
      ShowPeaceful(c, ts[i], ls[i], ts[i + 1]);
    }
    JoinRuns(c, labels, trace, n, l, ls, ts);
    labels', trace' := labels[..n] + [l] + ls, trace[..n + 1] + ts;
    var m := |labels'|;
    RunLength(c, labels', trace');
    assert trace'[m] == ts[|ls|];
    assert labels'[n] == l;
    forall k | 0 <= k < m && k != n
      ensures !Throws(labels'[k])
    {
      assert labels'[k] == if k < n then labels[k] else ls[k - n - 1];
    }
    RethrowsExactlyThrows(c, labels', trace', m);
    var i :| 0 <= i < m && IsThrowOf(labels'[i], trace'[m].error.value);
    ThrowOfThrows(labels'[i], trace'[m].error.value);
  }

  lemma InvBoundsNext(c: Config, s: State)
    requires Inv(c, s)
    ensures s.next <= |c.input|
  {
  }

  lemma ShowPeaceful(c: Config, s: State, l: Label, t: State)
    requires Peaceful(c, s, l, t)
    ensures Enabled(c, s, l) && !Throws(l) && t == Apply(c, s, l)
  {
  }

  // ---------------------------------------------------------------- What stops the input

  /** A stop request, a refused push, the end of a replay, or a thread that reports an error. */
  ghost predicate Stops(c: Config, s: State, l: Label) {
    || l == StopRequested
    || l == Main(PushRefused)
    || (l == Main(EndInput) && c.replay)
    || (l == Main(MainFails) && s.main == MainFailing(Stopping))
    || (l.Decoder? && l.d == DecoderFails && l.i < |s.decoders| && s.decoders[l.i] == DecoderFailing(Stopping))
    || (l == Writer(WriterFails) && s.writer.WriterFailing? && s.writer.stage == Stopping)
  }

  lemma MainStops(c: Config, s: State, a: MainAct)
    requires MainEnabled(c, s, a)
    ensures !MainApply(c, s, a).running <==> !s.running || Stops(c, s, Main(a))
  {
    hide AllExited, HasRoom, FailStep;
    if a == MainFails {
      FailStepEffect(s, s.main.stage, InputFailed);
    }
  }

  lemma DecoderStops(c: Config, s: State, i: nat, a: DecoderAct)
    requires DecoderEnabled(c, s, i, a)
    ensures !DecoderApply(c, s, i, a).running <==> !s.running || Stops(c, s, Decoder(i, a))
  {
    hide Held, HasRoom, DecodeFrame, FailStep;
    if a == DecoderFails {
      FailStepEffect(s, s.decoders[i].stage, DecoderFailed);
    }
  }

  lemma WriterStops(c: Config, s: State, a: WriterAct)
    requires WriterEnabled(s, a)
    ensures !WriterApply(c, s, a).running <==> !s.running || Stops(c, s, Writer(a))
  {
    hide Process, Park, Interrupted, FailStep;
    if a == WriterFails {
      FailStepEffect(s, s.writer.stage, s.writer.failure);
    }
  }

  lemma StepStops(c: Config, s: State, l: Label)
    requires Enabled(c, s, l)
    ensures !Apply(c, s, l).running <==> !s.running || Stops(c, s, l)
  {
    hide MainApply, DecoderApply, WriterApply, MainEnabled, DecoderEnabled, WriterEnabled, Stops;
    match l {
      case Main(a) => MainStops(c, s, a);
      case Decoder(i, a) => DecoderStops(c, s, i, a);
      case Writer(a) => WriterStops(c, s, a);
      case StopRequested => RequestStops(c, s);
    }
  }

  lemma RequestStops(c: Config, s: State)
    ensures Stops(c, s, StopRequested)
  {
  }

  /** The input is told to stop for one of these reasons, and never told to go on again. */
  lemma {:induction false} StoppedForAReason(c: Config, labels: seq<Label>, trace: seq<State>, n: nat)
    requires IsRun(c, labels, trace) && n < |trace|
    ensures !trace[n].running <==> exists i :: 0 <= i < n && Stops(c, trace[i], labels[i])
  {
    hide Apply, Enabled, Stops;
    if n > 0 {
      StoppedForAReason(c, labels, trace, n - 1);
      assert Enabled(c, trace[n - 1], labels[n - 1]) && trace[n - 1 + 1] == Apply(c, trace[n - 1], labels[n - 1]);
      StepStops(c, trace[n - 1], labels[n - 1]);
    }
  }

  /** Once the input is over, or the thread that failed has come that far, the flag is down. */
  ghost predicate FlagDown(s: State) {
    && (!StillReceiving(s.main) ==> !s.running)
    && (s.main.MainFailing? && s.main.stage in {ClosingRaw, ClosingDecoded} ==> !s.running)
  }

  lemma MainKeepsFlagDown(c: Config, s: State, a: MainAct)
    requires FlagDown(s) && MainEnabled(c, s, a)
    ensures FlagDown(MainApply(c, s, a))
  {
    hide AllExited, HasRoom, FailStep;
    if a == MainFails {
      FailStepEffect(s, s.main.stage, InputFailed);
    }
  }

  lemma WorkersKeepFlagDown(c: Config, s: State, l: Label)
    requires FlagDown(s) && Enabled(c, s, l) && !l.Main?
    ensures FlagDown(Apply(c, s, l))
  {
    hide Stops, Held, HasRoom, DecodeFrame, FailStep, Process, Park, Interrupted;
    StepStops(c, s, l);
    if l.Decoder? && l.d == DecoderFails {
      FailStepEffect(s, s.decoders[l.i].stage, DecoderFailed);
    } else if l == Writer(WriterFails) {
      FailStepEffect(s, s.writer.stage, s.writer.failure);
    }
  }

  /** Whatever ends the input, it leaves the running flag down behind it. */
  lemma {:induction false} InputEndsStopped(c: Config, labels: seq<Label>, trace: seq<State>, n: nat)
    requires IsRun(c, labels, trace) && n < |trace|
    ensures FlagDown(trace[n])
  {
    hide MainApply, DecoderApply, WriterApply, MainEnabled, DecoderEnabled, WriterEnabled, FlagDown;
    if n > 0 {
      InputEndsStopped(c, labels, trace, n - 1);
      var s, l := trace[n - 1], labels[n - 1];
      assert Enabled(c, s, l) && trace[n - 1 + 1] == Apply(c, s, l);
      if l.Main? {
        MainKeepsFlagDown(c, s, l.m);
      } else {
        WorkersKeepFlagDown(c, s, l);
      }
    } else {
      StartsRunning(c);
    }
  }

  lemma StartsRunning(c: Config)
    ensures FlagDown(Initial(c))
  {
  }
}
