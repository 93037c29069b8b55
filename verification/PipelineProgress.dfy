/**
 The pipeline neither blocks nor runs for ever: in every reachable state some thread can go on
 without throwing, and every step of any thread uses up part of a finite budget.
 */
module PipelineProgress {
  import opened Bytes
  import opened FrameCodec
  import opened OrderedWriter
  import opened Pipeline
  import opened PipelineInvariant
  import opened PipelineTheorems

  /** Steps in which something throws. */
  predicate Throws(l: Label) {
    match l
    case Main(a) => a == InputThrows
    case Decoder(_, a) => a == DecoderThrows
    case Writer(a) => a.TreatThrows? || a == ParkThrows || a == FinishThrows
    case StopRequested => false
  }

  /** What the pipeline does not do by itself: throwing, and being asked to stop. */
  predicate Disturbs(l: Label) { Throws(l) || l == StopRequested }

  predicate Finished(s: State) { s.main == Returned || s.main == Rethrown }

  /** A network station that has taken in all that was sent listens on until it is asked to stop. */
  predicate Listening(c: Config, s: State) {
    !c.replay && s.main == Receiving && s.running && s.next == |c.input|
  }

  // ---------------------------------------------------------------- Somebody can always go on

  lemma WriterCanStep(s: State) returns (l: Label)
    requires s.writer != WriterExited
    requires s.writer == Awaiting ==> s.queue != [] || s.queueClosed
    ensures l.Writer? && WriterEnabled(s, l.w) && !Disturbs(l)
  {
    match s.writer {
      case Awaiting => l := Writer(if s.queue != [] then PopItem else SeeQueueEnd);
      case Draining => l := Writer(if s.books.expected in s.books.pending then Treat else CaughtUp);
      case Finishing => l := Writer(Finish);
      case WriterFailing(_, _) => l := Writer(WriterFails);
    }
  }

  /** A decoder with something to do can do it, or is held up by a writer that can go on. */
  lemma DecoderCanStep(c: Config, s: State, i: nat) returns (l: Label)
    requires Ordered(s) && i < |s.decoders| && s.decoders[i] != DecoderExited
    requires s.decoders[i] == Popping ==> s.raw != [] || s.rawClosed
    ensures (l.Decoder? || l.Writer?) && Enabled(c, s, l) && !Disturbs(l)
  {
    match s.decoders[i] {
      case Popping => l := Decoder(i, if s.raw != [] then PopRaw else SeeRawEnd);
      case Holding(_) =>
        if s.queueClosed {
          l := Decoder(i, ItemRefused);
        } else if HasRoom(c, |s.queue|) {
          l := Decoder(i, PushItem);
        } else {
          l := WriterCanStep(s);
        }
      case DecoderFailing(_) => l := Decoder(i, DecoderFails);
    }
  }

  lemma SomeStepIsEnabled(c: Config, s: State) returns (l: Label)
    requires ValidOptions(c) && Inv(c, s) && !Finished(s) && !Listening(c, s)
    ensures Enabled(c, s, l) && !Disturbs(l) && (l == Main(Submit) ==> s.running)
  {
    hide Numbering, Conserved, Faithful, Captured, Excused, NoFalseAlarm, InputUsedUp, Bounded, Alarmed, Genuine,
         Agrees, AllAgree;
    match s.main {
      case Receiving => l := Main(if s.running && s.next < |c.input| then Submit else EndInput);
      case Pushing(_) =>
        if s.rawClosed {
          l := Main(PushRefused);
        } else if HasRoom(c, |s.raw|) {
          l := Main(PushRaw);
        } else {
          l := DecoderCanStep(c, s, 0);
        }
      case Counting => l := Main(CountReceived);
      case MainFailing(_) => l := Main(MainFails);
      case StoppingRaw => l := Main(CloseRaw);
      case JoiningDecoders =>
        if AllExited(s.decoders) {
          l := Main(JoinDecoders);
        } else {
          var i: nat :| i < |s.decoders| && s.decoders[i] != DecoderExited;
          l := DecoderCanStep(c, s, i);
        }
      case StoppingDecoded => l := Main(CloseQueue);
      case JoiningWriter =>
        if s.writer == WriterExited {
          l := Main(JoinWriter);
        } else {
          l := WriterCanStep(s);
        }
      case Rethrowing => l := Main(Rethrow);
    }
  }

  lemma WorkerStepIsEnabled(c: Config, s: State) returns (l: Label)
    requires ValidOptions(c) && Inv(c, s) && s.error == None && s.books.expected < s.pushed
    ensures (l.Decoder? || l.Writer?) && Enabled(c, s, l) && !Disturbs(l)
  {
    hide Faithful, Captured, NoFalseAlarm, InputUsedUp, Bounded, Alarmed, Genuine, Agrees, AllAgree, InHand,
         Sequences, UpTo;
    if s.writer.WriterFailing? || s.writer == Draining || s.queue != [] {
      if s.writer == WriterExited {
        assert false;
      } else {
        l := WriterCanStep(s);
      }
    } else if i: nat :| i < |s.decoders| && s.decoders[i] != DecoderExited && (s.decoders[i] != Popping || s.raw != []) {
      l := DecoderCanStep(c, s, i);
    } else {
      IdleMeansDone(c, s);
    }
  }

  lemma {:induction false} IdleDecoders(ds: seq<DecoderPc>)
    requires forall i :: 0 <= i < |ds| ==> !ds[i].Holding?
    ensures InHand(ds) == multiset{}
  {
    if ds != [] {
      IdleDecoders(ds[1..]);
    }
  }

  /** When no worker has anything to do, everything pushed has been treated. */
  lemma IdleMeansDone(c: Config, s: State)
    requires ValidOptions(c) && Inv(c, s) && s.error == None
    requires !s.writer.WriterFailing? && s.writer != Draining && s.queue == []
    requires forall i :: 0 <= i < |s.decoders| ==>
                           s.decoders[i] == DecoderExited || (s.decoders[i] == Popping && s.raw == [])
    ensures s.books.expected == s.pushed
  {
    hide Reflects, Torn, Results, Captured, NoFalseAlarm, InputUsedUp, Bounded, Alarmed, Genuine, Agrees, AllAgree,
         UpTo;
    IdleDecoders(s.decoders);
    assert s.raw == [] by {
      assert s.decoders[0] == DecoderExited || s.raw == [];
    }
    assert s.lost == multiset{};
    assert Sequences(s.queue) == multiset{};
    assert Beyond(s) == Arrived(s.books);
    UpToSize(Taken(s));
    assert s.books.expected !in s.books.pending;
    NothingParked(s.books);
    ArrivedAll(s.books);
  }

  /** In every reachable state that is neither final nor listening, some thread can go on without throwing. */
  lemma NeverDeadlocks(c: Config, labels: seq<Label>, trace: seq<State>, n: nat) returns (l: Label)
    requires ValidOptions(c) && IsRun(c, labels, trace) && n < |trace|
    requires !Finished(trace[n]) && !Listening(c, trace[n])
    ensures Enabled(c, trace[n], l) && !Disturbs(l) && (l == Main(Submit) ==> trace[n].running)
  {
    hide Inv, IsRun, Enabled, Disturbs;
    ReachableInv(c, labels, trace, n);
    l := SomeStepIsEnabled(c, trace[n]);
  }

  /**
   While a pushed frame is not yet treated and nothing has failed, a decoder or the writer can go
   on: the producer may wait for the network as long as it likes.
   */
  lemma WorkKeepsMoving(c: Config, labels: seq<Label>, trace: seq<State>, n: nat) returns (l: Label)
    requires ValidOptions(c) && IsRun(c, labels, trace) && n < |trace|
    requires trace[n].error == None && trace[n].books.expected < trace[n].pushed
    ensures (l.Decoder? || l.Writer?) && Enabled(c, trace[n], l) && !Disturbs(l)
  {
    hide Inv, IsRun, Enabled, Disturbs;
    ReachableInv(c, labels, trace, n);
    l := WorkerStepIsEnabled(c, trace[n]);
  }

  // ---------------------------------------------------------------- A budget that every step uses

  function MainBudget(m: MainPc): nat {
    match m
    case Pushing(_) => 29
    case Counting => 21
    case Receiving => 20
    case MainFailing(stage) => 15 + StageBudget(stage)
    case StoppingRaw => 15
    case JoiningDecoders => 14
    case StoppingDecoded => 13
    case JoiningWriter => 12
    case Rethrowing => 11
    case Returned => 0
    case Rethrown => 0
  }

  function StageBudget(stage: Stage): nat {
    match stage
    case Capturing => 4
    case Stopping => 3
    case ClosingRaw => 2
    case ClosingDecoded => 1
  }

  function DecoderBudget(pc: DecoderPc): nat {
    match pc
    case Holding(_) => 9
    case Popping => 5
    case DecoderFailing(stage) => StageBudget(stage)
    case DecoderExited => 0
  }

  function DecodersBudget(ds: seq<DecoderPc>): nat {
    if ds == [] then 0 else DecoderBudget(ds[0]) + DecodersBudget(ds[1..])
  }

  function WriterBudget(pc: WriterPc): nat {
    match pc
    case Draining => 7
    case Awaiting => 6
    case Finishing => 5
    case WriterFailing(stage, _) => StageBudget(stage)
    case WriterExited => 0
  }

  /** Frames cost less and less on their way; threads only move towards their end. */
  function Budget(c: Config, s: State): nat
    requires s.next <= |c.input|
  {
    10 * (|c.input| - s.next) + MainBudget(s.main) + 5 * |s.raw| + DecodersBudget(s.decoders) + 3 * |s.queue|
    + WriterBudget(s.writer) + |s.books.pending| + (if s.running then 1 else 0)
  }

  lemma {:induction false} DecodersBudgetUpdate(ds: seq<DecoderPc>, i: nat, pc: DecoderPc)
    requires i < |ds|
    ensures DecodersBudget(ds[i := pc]) == DecodersBudget(ds) - DecoderBudget(ds[i]) + DecoderBudget(pc)
  {
    if i == 0 {
      assert ds[i := pc][1..] == ds[1..];
    } else {
      DecodersBudgetUpdate(ds[1..], i - 1, pc);
      assert ds[i := pc][1..] == ds[1..][i - 1 := pc];
    }
  }

  lemma MainFailsUsesBudget(c: Config, s: State)
    requires s.next <= |c.input| && MainEnabled(c, s, MainFails)
    ensures MainApply(c, s, MainFails).next <= |c.input| && Budget(c, MainApply(c, s, MainFails)) < Budget(c, s)
  {
    hide DecodersBudget, WriterBudget, FailStep;
    FailStepIsNarrow(s, s.main.stage, InputFailed);
  }

  lemma MainUsesBudget(c: Config, s: State, a: MainAct)
    requires s.next <= |c.input| && MainEnabled(c, s, a)
    ensures MainApply(c, s, a).next <= |c.input| && Budget(c, MainApply(c, s, a)) < Budget(c, s)
  {
    hide DecodersBudget, WriterBudget, FailStep, AllExited, NextStage;
    if a == MainFails {
      MainFailsUsesBudget(c, s);
    }
  }

  lemma DecoderUsesBudget(c: Config, s: State, i: nat, a: DecoderAct)
    requires s.next <= |c.input| && DecoderEnabled(c, s, i, a)
    ensures DecoderApply(c, s, i, a).next <= |c.input| && Budget(c, DecoderApply(c, s, i, a)) < Budget(c, s)
  {
    hide DecodeFrame, Held, DecodersBudget, MainBudget, WriterBudget, FailStep;
    if a == DecoderFails {
      FailStepIsNarrow(s, s.decoders[i].stage, DecoderFailed);
    }
    DecodersBudgetUpdate(s.decoders, i, DecoderApply(c, s, i, a).decoders[i]);
  }

  /** The writer's part of the budget. */
  function WriterShare(s: State): nat { 3 * |s.queue| + WriterBudget(s.writer) + |s.books.pending| }

  lemma PopUsesShare(c: Config, s: State)
    requires WriterEnabled(s, PopItem)
    ensures WriterShare(WriterApply(c, s, PopItem)) < WriterShare(s)
  {
    hide Park;
    ParkGrows(s.books, s.queue[0]);
  }

  lemma TreatUsesShare(c: Config, s: State)
    requires WriterEnabled(s, Treat)
    ensures WriterShare(WriterApply(c, s, Treat)) < WriterShare(s)
  {
    hide Process;
    ProcessKeeps(c.health, s.books);
    ProcessShrinks(s.books);
  }

  lemma ThrowUsesShare(c: Config, s: State, p: Progress)
    requires WriterEnabled(s, TreatThrows(p))
    ensures WriterShare(WriterApply(c, s, TreatThrows(p))) < WriterShare(s)
  {
    hide Interrupted;
    InterruptedKeeps(c.health, s.books, s.books.pending[s.books.expected], p);
  }

  lemma FailUsesShare(c: Config, s: State)
    requires WriterEnabled(s, WriterFails)
    ensures WriterShare(WriterApply(c, s, WriterFails)) < WriterShare(s)
  {
    hide FailStep;
    FailStepIsNarrow(s, s.writer.stage, s.writer.failure);
  }

  lemma WriterUsesShare(c: Config, s: State, a: WriterAct)
    requires WriterEnabled(s, a)
    ensures WriterShare(WriterApply(c, s, a)) < WriterShare(s)
  {
    hide Process, Interrupted, Park, FailStep;
    match a {
      case PopItem => PopUsesShare(c, s);
      case Treat => TreatUsesShare(c, s);
      case TreatThrows(p) => ThrowUsesShare(c, s, p);
      case WriterFails => FailUsesShare(c, s);
      case _ =>
    }
  }

  lemma WriterUsesBudget(c: Config, s: State, a: WriterAct)
    requires s.next <= |c.input| && WriterEnabled(s, a)
    ensures WriterApply(c, s, a).next <= |c.input| && Budget(c, WriterApply(c, s, a)) < Budget(c, s)
  {
    hide Process, Interrupted, Park, DecodersBudget, MainBudget, WriterBudget, FailStep;
    WriterUsesShare(c, s, a);
    if a == WriterFails {
      FailStepIsNarrow(s, s.writer.stage, s.writer.failure);
    }
  }

  lemma ParkGrows(b: Books, item: Item)
    ensures |Park(b, item).pending| <= |b.pending| + 1
  {
    assert b.pending[item.sequence := item.result].Keys == b.pending.Keys + {item.sequence};
  }

  lemma StepUsesBudget(c: Config, s: State, l: Label)
    requires s.next <= |c.input| && Enabled(c, s, l)
    ensures Apply(c, s, l).next <= |c.input| && Budget(c, Apply(c, s, l)) < Budget(c, s)
  {
    hide MainApply, DecoderApply, WriterApply, MainEnabled, DecoderEnabled, WriterEnabled;
    match l {
      case Main(a) => MainUsesBudget(c, s, a);
      case Decoder(i, a) => DecoderUsesBudget(c, s, i, a);
      case Writer(a) => WriterUsesBudget(c, s, a);
      case StopRequested =>
    }
  }

  lemma {:induction false} InitialBudget(n: nat)
    ensures DecodersBudget(seq(n, i => Popping)) == 5 * n
  {
    if n > 0 {
      InitialBudget(n - 1);
      assert seq(n, i => Popping)[1..] == seq(n - 1, i => Popping);
    }
  }

  lemma {:induction false} RunUsesBudget(c: Config, labels: seq<Label>, trace: seq<State>, n: nat)
    requires IsRun(c, labels, trace) && n < |trace|
    ensures trace[n].next <= |c.input| && Budget(c, trace[n]) + n <= 10 * |c.input| + 5 * c.decoders + 27
  {
    hide Apply, Enabled;
    if n == 0 {
      InitialBudget(c.decoders);
    } else {
      RunUsesBudget(c, labels, trace, n - 1);
      assert Enabled(c, trace[n - 1], labels[n - 1]) && trace[n - 1 + 1] == Apply(c, trace[n - 1], labels[n - 1]);
      StepUsesBudget(c, trace[n - 1], labels[n - 1]);
    }
  }

  /** Every run is shorter than this, failures and stop requests included. */
  lemma EveryRunEnds(c: Config, labels: seq<Label>, trace: seq<State>)
    requires IsRun(c, labels, trace)
    ensures |labels| <= 10 * |c.input| + 5 * c.decoders + 27
  {
    hide IsRun;
    assert |trace| == |labels| + 1 by { RunShape(c, labels, trace); }
    RunUsesBudget(c, labels, trace, |labels|);
  }

  lemma RunShape(c: Config, labels: seq<Label>, trace: seq<State>)
    requires IsRun(c, labels, trace)
    ensures |trace| == |labels| + 1 && trace[0] == Initial(c)
  {
  }

  /** A run that cannot go on is over: run() has returned or thrown and every thread has been joined. */
  lemma StuckMeansFinished(c: Config, labels: seq<Label>, trace: seq<State>)
    requires ValidOptions(c) && IsRun(c, labels, trace)
    requires forall l :: !Enabled(c, trace[|labels|], l)
    ensures var s := trace[|labels|];
            && Finished(s) && AllExited(s.decoders) && s.writer == WriterExited && s.rawClosed && s.queueClosed
            && (s.main == Rethrown <==> s.error.Some?)
  {
    hide IsRun, Enabled, Contents, Numbering, Conserved, Faithful, Captured, Excused, NoFalseAlarm, InputUsedUp,
         Bounded, Alarmed;
    RunShape(c, labels, trace);
    var s := trace[|labels|];
    ReachableInv(c, labels, trace, |labels|);
    if !Finished(s) {
      if Listening(c, s) {
        StopIsEnabled(c, s);
        assert false;
      } else {
        var l := SomeStepIsEnabled(c, s);
        assert false;
      }
    }
  }

  lemma StopIsEnabled(c: Config, s: State)
    requires Listening(c, s)
    ensures Enabled(c, s, StopRequested)
  {
  }

  // ---------------------------------------------------------------- A network station at rest

  /** A stored error has not stopped the input yet: the thread that stored it can. */
  lemma AlarmCanStep(c: Config, s: State) returns (l: Label)
    requires Alarmed(s) && s.error.Some? && s.running
    ensures Enabled(c, s, l) && !Disturbs(l)
  {
    if s.main == MainFailing(Stopping) {
      l := Main(MainFails);
    } else if i: nat :| i < |s.decoders| && s.decoders[i] == DecoderFailing(Stopping) {
      l := Decoder(i, DecoderFails);
    } else {
      l := Writer(WriterFails);
    }
  }

  lemma AllTreatedParksNothing(s: State)
    requires Conserved(s) && s.books.expected == s.pushed
    ensures s.books.pending == map[]
  {
    hide InHand, Sequences, UpTo;
    if k :| k in s.books.pending {
      UpToHas(s.books.expected, k);
      assert Arrived(s.books)[k] >= 1 && Beyond(s)[k] >= 1;
      BeyondIsTaken(s, k);
      assert false;
    }
  }

  /**
   A listening station in which nothing goes on by itself has stored no error and has treated
   everything it was sent.
   */
  lemma RestMeansAllTreated(c: Config, labels: seq<Label>, trace: seq<State>, n: nat)
    requires ValidOptions(c) && IsRun(c, labels, trace) && n < |trace| && Listening(c, trace[n])
    requires forall l :: !Disturbs(l) ==> !Enabled(c, trace[n], l)
    ensures var s := trace[n];
            && s.error == None && s.received == s.books.expected == |c.input| && s.books.pending == map[]
            && Reflects(c.health, s.books, Results(c))
  {
    hide IsRun, Enabled, Disturbs, Inv, Reflects, Results;
    var s := trace[n];
    ReachableInv(c, labels, trace, n);
    if s.error.Some? {
      InvIsAlarmed(c, s);
      var l := AlarmCanStep(c, s);
      assert false;
    } else if s.books.expected < s.pushed {
      var l := WorkerStepIsEnabled(c, s);
      assert false;
    } else {
      RestIsWhole(c, s);
      if s.writer.WriterFailing? {
        var l := WriterCanStep(s);
        WriterStepIsStep(c, s, l);
        assert false;
      } else {
        assert Results(c)[..|c.input|] == Results(c);
      }
    }
  }

  lemma WriterStepIsStep(c: Config, s: State, l: Label)
    requires l.Writer? && WriterEnabled(s, l.w)
    ensures Enabled(c, s, l)
  {
  }

  lemma InvIsAlarmed(c: Config, s: State)
    requires Inv(c, s)
    ensures Alarmed(s)
  {
  }

  lemma RestIsWhole(c: Config, s: State)
    requires Inv(c, s) && Listening(c, s) && s.error == None && s.books.expected >= s.pushed
    ensures s.received == s.books.expected == |c.input| && s.books.pending == map[]
    ensures s.writer.WriterFailing? || Reflects(c.health, s.books, Results(c)[..|c.input|])
  {
    hide Contents, Conserved, Captured, Excused, NoFalseAlarm, InputUsedUp, Bounded, Alarmed, Reflects, Torn, Results;
    TreatedIsPushed(s);
    AllTreatedParksNothing(s);
  }

  // ---------------------------------------------------------------- Runs that nothing disturbs

  /** No error is stored or about to be. */
  predicate Calm(s: State) {
    && s.error == None && !s.stopRequested
    && (StillReceiving(s.main) ==> s.running)
    && !s.main.MainFailing? && !s.writer.WriterFailing?
    && (forall i :: 0 <= i < |s.decoders| ==> !s.decoders[i].DecoderFailing?)
  }

  lemma MainStaysCalm(c: Config, s: State, a: MainAct)
    requires Ordered(s) && Calm(s) && MainEnabled(c, s, a) && a != InputThrows
    ensures Calm(MainApply(c, s, a))
  {
  }

  lemma DecoderStaysCalm(c: Config, s: State, i: nat, a: DecoderAct)
    requires Calm(s) && DecoderEnabled(c, s, i, a) && a != DecoderThrows
    ensures Calm(DecoderApply(c, s, i, a))
  {
    hide DecodeFrame, Held;
  }

  lemma WriterStaysCalm(c: Config, s: State, a: WriterAct)
    requires Inv(c, s) && Calm(s) && WriterEnabled(s, a) && !Disturbs(Writer(a))
    ensures Calm(WriterApply(c, s, a))
  {
    hide Process, Contents, Numbering, Conserved, Faithful, Captured, Ordered, Excused, NoFalseAlarm, InputUsedUp,
         Bounded, Alarmed;
    if a == PopItem {
      FrontIsNew(s);
    }
    if a == SeeQueueEnd && s.books.pending != map[] {
      GapHasACause(c, s);
    }
  }

  lemma {:induction false} UndisturbedIsCalm(c: Config, labels: seq<Label>, trace: seq<State>, n: nat)
    requires IsRun(c, labels, trace) && n < |trace|
    requires forall i :: 0 <= i < n ==> !Disturbs(labels[i])
    ensures Calm(trace[n])
  {
    hide Inv, MainApply, DecoderApply, WriterApply, MainEnabled, DecoderEnabled, WriterEnabled;
    if n > 0 {
      UndisturbedIsCalm(c, labels, trace, n - 1);
      var s := trace[n - 1];
      assert Enabled(c, s, labels[n - 1]) && trace[n - 1 + 1] == Apply(c, s, labels[n - 1]);
      assert !Disturbs(labels[n - 1]);
      ReachableInv(c, labels, trace, n - 1);
      match labels[n - 1] {
        case Main(a) =>
          assert Ordered(s) by { InvIsOrdered(c, s); }
          MainStaysCalm(c, s, a);
        case Decoder(i, a) => DecoderStaysCalm(c, s, i, a);
        case Writer(a) => WriterStaysCalm(c, s, a);
        case StopRequested =>
      }
    }
  }

  lemma InvIsOrdered(c: Config, s: State)
    requires Inv(c, s)
    ensures Ordered(s)
  {
  }

  /** Nothing disturbed the schedule and it was followed until nothing could go on by itself. */
  ghost predicate Followed(c: Config, labels: seq<Label>, trace: seq<State>)
    requires IsRun(c, labels, trace)
  {
    && (forall i :: 0 <= i < |labels| ==> !Disturbs(labels[i]))
    && (forall l :: !Disturbs(l) ==> !Enabled(c, trace[|labels|], l))
  }

  /**
   If nothing throws and nobody asks to stop, then any schedule that is followed to its end has
   produced counters, health, transitions and export of the whole input.  A replay has then
   returned without an error; a network station listens on.
   */
  lemma UndisturbedRunsAgree(c: Config, labels: seq<Label>, trace: seq<State>)
    requires ValidOptions(c) && IsRun(c, labels, trace)
    requires Followed(c, labels, trace)
    ensures var s := trace[|labels|];
            && s.main == (if c.replay then Returned else Receiving) && s.received == |c.input|
            && s.books.expected == |c.input| && s.books.pending == map[]
            && Reflects(c.health, s.books, Results(c))
  {
    hide IsRun, Inv, Enabled, Disturbs, Reflects, Calm, Results;
    RunShape(c, labels, trace);
    var s := trace[|labels|];
    ReachableInv(c, labels, trace, |labels|);
    UndisturbedIsCalm(c, labels, trace, |labels|);
    if Listening(c, s) {
      RestMeansAllTreated(c, labels, trace, |labels|);
    } else {
      if !Finished(s) {
        var l := SomeStepIsEnabled(c, s);
        assert false;
      }
      CalmReturns(c, s);
      CleanReturnIsComplete(c, labels, trace, |labels|);
      assert Results(c)[..|c.input|] == Results(c);
    }
  }

  /** Decoders, capacity, schedule and the way the frames come in leave no trace in what is produced. */
  lemma WorkersLeaveNoTrace(c: Config, labels: seq<Label>, trace: seq<State>,
                            c': Config, labels': seq<Label>, trace': seq<State>)
    requires ValidOptions(c) && IsRun(c, labels, trace) && Followed(c, labels, trace)
    requires ValidOptions(c') && IsRun(c', labels', trace') && Followed(c', labels', trace')
    requires c'.input == c.input && c'.health == c.health
    ensures var b, b' := trace[|labels|].books, trace'[|labels'|].books;
            && b'.written == b.written && b'.decoded == b.decoded && b'.rejected == b.rejected
            && b'.health == b.health && b'.transitions == b.transitions
  {
    hide IsRun, Enabled, Disturbs, Inv, FramesOf, TransitionsOf, SamplesOf, DecodeFrame;
    RunShape(c, labels, trace);
    RunShape(c', labels', trace');
    UndisturbedRunsAgree(c, labels, trace);
    UndisturbedRunsAgree(c', labels', trace');
    assert Results(c') == Results(c);
  }

  lemma CalmReturns(c: Config, s: State)
    requires Inv(c, s) && Calm(s) && Finished(s)
    ensures s.main == Returned && c.replay && s.next == |c.input|
  {
    hide Contents, Conserved, Faithful, Captured, Excused, NoFalseAlarm, Bounded, Alarmed;
  }

  lemma {:induction false} FinishFrom(c: Config, s: State) returns (labels: seq<Label>, trace: seq<State>)
    requires ValidOptions(c) && Inv(c, s) && s.next <= |c.input|
    ensures |trace| == |labels| + 1 && trace[0] == s && Finished(trace[|labels|])
    ensures forall i :: 0 <= i < |labels| ==> Peaceful(c, trace[i], labels[i], trace[i + 1])
    decreases Budget(c, s)
  {
    hide Inv, Enabled, Apply, Budget, Peaceful;
    if Finished(s) {
      labels, trace := [], [s];
    } else {
      var l := StopRequested;
      if Listening(c, s) {
        StopIsEnabled(c, s);
      } else {
        l := SomeStepIsEnabled(c, s);
      }
      StepKeepsInv(c, s, l);
      StepUsesBudget(c, s, l);
      StepIsPeaceful(c, s, l);
      var ls, ts := FinishFrom(c, Apply(c, s, l));
      labels, trace := [l] + ls, [s] + ts;
      forall i | 0 <= i < |labels|
        ensures Peaceful(c, trace[i], labels[i], trace[i + 1])
      {
        if i > 0 {
          assert trace[i] == ts[i - 1] && labels[i] == ls[i - 1] && trace[i + 1] == ts[i - 1 + 1];
        }
      }
    }
  }

  lemma StepIsPeaceful(c: Config, s: State, l: Label)
    requires Enabled(c, s, l) && !Throws(l) && (l == StopRequested ==> Listening(c, s))
    requires l == Main(Submit) ==> s.running
    ensures Peaceful(c, s, l, Apply(c, s, l))
  {
  }

  /** Nothing throws, a stop is requested at most of a listening station, and input ends once it is stopped. */
  ghost predicate Peaceful(c: Config, s: State, l: Label, t: State) {
    && Enabled(c, s, l) && !Throws(l) && t == Apply(c, s, l)
    && (l == StopRequested ==> Listening(c, s)) && (l == Main(Submit) ==> s.running)
  }

  /** From every reachable state a schedule without further trouble leads to the end. */
  lemma CanAlwaysFinish(c: Config, labels: seq<Label>, trace: seq<State>, n: nat)
    returns (labels': seq<Label>, trace': seq<State>)
    requires ValidOptions(c) && IsRun(c, labels, trace) && n < |trace|
    ensures |trace'| == |labels'| + 1 && trace'[0] == trace[n] && Finished(trace'[|labels'|])
    ensures forall i :: 0 <= i < |labels'| ==> Peaceful(c, trace'[i], labels'[i], trace'[i + 1])
  {
    hide Inv, IsRun, Enabled, Peaceful, Apply;
    ReachableInv(c, labels, trace, n);
    RunUsesBudget(c, labels, trace, n);
    labels', trace' := FinishFrom(c, trace[n]);
  }
}
