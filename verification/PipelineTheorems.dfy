/**
 What the pipeline guarantees over whole runs: where every frame is, what comes out, and what a
 return or an error means.
 */
module PipelineTheorems {
  import opened Bytes
  import opened FrameCodec
  import opened StationHealth
  import opened OrderedWriter
  import opened Pipeline
  import opened PipelineInvariant

  // ---------------------------------------------------------------- Where the numbers are

  ghost function RawNumbers(q: seq<Work>): multiset<nat> {
    if q == [] then multiset{} else RawNumbers(q[..|q| - 1]) + multiset{q[|q| - 1].sequence}
  }

  lemma {:induction false} RawIsContiguous(q: seq<Work>, first: nat)
    requires forall j :: 0 <= j < |q| ==> q[j].sequence == first + j
    ensures UpTo(first) + RawNumbers(q) == UpTo(first + |q|)
  {
    hide UpTo;
    if q == [] {
      assert UpTo(first) + multiset{} == UpTo(first);
    } else {
      var front, last := q[..|q| - 1], first + |q| - 1;
      RawIsContiguous(front, first);
      UpToNext(last);
      Associate(UpTo(first), RawNumbers(front), multiset{last});
    }
  }

  lemma Associate(x: multiset<nat>, y: multiset<nat>, z: multiset<nat>)
    ensures x + (y + z) == (x + y) + z
  {
  }

  /** Each pushed number is exactly once in: raw queue, decoders, decoded queue, parked or treated, lost. */
  lemma EveryNumberIsInOnePlace(c: Config, labels: seq<Label>, trace: seq<State>, n: nat)
    requires IsRun(c, labels, trace) && n < |trace|
    ensures var s := trace[n];
            InHand(s.decoders) + Sequences(s.queue) + Arrived(s.books) + s.lost + RawNumbers(s.raw) == UpTo(s.pushed)
  {
    hide InHand, Sequences, Arrived, UpTo, RawNumbers, IsRun, Contents, Faithful, Captured, Ordered, Excused,
         NoFalseAlarm, InputUsedUp, Bounded, Alarmed;
    ReachableInv(c, labels, trace, n);
    RawIsContiguous(trace[n].raw, Taken(trace[n]));
  }

  ghost function Missing(s: State): set<nat> {
    set k: nat | s.books.expected <= k < Taken(s) && k !in s.books.pending
  }

  lemma {:induction false} InHandSize(ds: seq<DecoderPc>)
    ensures |InHand(ds)| <= |ds|
  {
    if ds != [] {
      InHandSize(ds[1..]);
    }
  }

  lemma MissingAre(s: State)
    requires Conserved(s)
    ensures multiset(Missing(s)) == InHand(s.decoders) + Sequences(s.queue) + s.lost
  {
    hide InHand, Sequences, UpTo;
    var others := InHand(s.decoders) + Sequences(s.queue) + s.lost;
    forall k: nat
      ensures multiset(Missing(s))[k] == others[k]
    {
      UpToHas(Taken(s), k);
      UpToHas(s.books.expected, k);
      assert Beyond(s)[k] == others[k] + Arrived(s.books)[k];
    }
  }

  /**
   The numbers missing below those taken are each in a decoder, in the decoded queue, or lost to a
   failure; so before any failure there are at most as many as decoders and queue slots.
   */
  lemma MissingIsBounded(c: Config, labels: seq<Label>, trace: seq<State>, n: nat)
    requires IsRun(c, labels, trace) && n < |trace|
    ensures var s := trace[n];
            && |Missing(s)| == |InHand(s.decoders)| + |s.queue| + |s.lost|
            && |InHand(s.decoders)| <= c.decoders
            && (c.capacity > 0 ==> |s.raw| <= c.capacity && |s.queue| <= c.capacity)
            && (s.lost != multiset{} ==> s.error.Some? || SomeThreadFailing(s))
            && (c.capacity > 0 && s.error == None && !SomeThreadFailing(s) ==> |Missing(s)| <= c.decoders + c.capacity)
  {
    hide InHand, Sequences, Missing, Conserved, IsRun, Numbering, Faithful, Captured, Ordered, NoFalseAlarm,
         InputUsedUp, Alarmed;
    var s := trace[n];
    ReachableInv(c, labels, trace, n);
    MissingAre(s);
    InHandSize(s.decoders);
    SequencesSize(s.queue);
    assert |multiset(Missing(s))| == |Missing(s)|;
  }

  ghost predicate SomeThreadFailing(s: State) {
    || s.main.MainFailing?
    || s.writer.WriterFailing?
    || (exists i :: 0 <= i < |s.decoders| && s.decoders[i].DecoderFailing?)
  }

  /** While results are parked, the expected one is on its way (or was lost to a failure). */
  lemma ExpectedIsOnItsWay(c: Config, labels: seq<Label>, trace: seq<State>, n: nat)
    requires IsRun(c, labels, trace) && n < |trace|
    requires trace[n].writer == Awaiting && trace[n].books.pending != map[]
    ensures var s := trace[n]; s.books.expected in InHand(s.decoders) + Sequences(s.queue) + s.lost
  {
    hide InHand, Sequences, UpTo, IsRun, Contents, Numbering, Captured, Ordered, Excused, NoFalseAlarm, InputUsedUp,
         Bounded, Alarmed, Reflects, Torn;
    var s := trace[n];
    ReachableInv(c, labels, trace, n);
    var e := s.books.expected;
    assert s.books.pending.Keys != {};
    var k :| k in s.books.pending;
    UpToHas(e, k);
    UpToHas(e, e);
    UpToHas(Taken(s), e);
    assert Arrived(s.books)[k] >= 1 && Beyond(s)[k] >= 1;
    BeyondIsTaken(s, k);
    assert Arrived(s.books)[e] == 0;
  }

  // ---------------------------------------------------------------- What comes out

  lemma {:induction false} FramesOfPrefix(rs: seq<ParseResult>, k: nat)
    requires k <= |rs|
    ensures FramesOf(rs[..k]) <= FramesOf(rs)
    decreases |rs|
  {
    if k < |rs| {
      FramesOfPrefix(rs[..|rs| - 1], k);
      assert rs[..|rs| - 1][..k] == rs[..k];
    } else {
      assert rs[..k] == rs;
    }
  }

  /**
   Whatever the schedule, the number of decoders and the capacity: the counters, the health state,
   its transitions and the export are those of a prefix of the input treated one frame at a time.
   A writer that has failed may have left the next result half treated: counted, and observed and
   exported or not.
   */
  lemma OutputFollowsInput(c: Config, labels: seq<Label>, trace: seq<State>, n: nat)
    requires IsRun(c, labels, trace) && n < |trace|
    ensures var s := trace[n];
            && s.books.expected <= s.pushed <= |c.input|
            && (|| Reflects(c.health, s.books, Results(c)[..s.books.expected])
                || (WriterFailed(s) && s.books.expected < s.pushed
                    && Torn(c.health, s.books, Results(c)[..s.books.expected], Results(c)[..s.books.expected + 1])))
            && s.books.written <= FramesOf(Results(c))
            && s.books.decoded + s.books.rejected <= s.received + 1
            && |s.books.written| <= s.books.decoded
  {
    hide InHand, Sequences, UpTo, IsRun, Results, Observed, FramesOf, Captured, Ordered, Excused, NoFalseAlarm,
         InputUsedUp, Bounded, Alarmed;
    var s := trace[n];
    ReachableInv(c, labels, trace, n);
    var e, rs := s.books.expected, Results(c);
    TreatedIsPushed(s);
    FramesOfPrefix(rs, e);
    if WriterFailed(s) && e < |rs| {
      FramesOfPrefix(rs, e + 1);
      FramesOfPrefix(rs[..e + 1], e);
      assert rs[..e + 1][..e] == rs[..e];
    }
  }

  lemma TreatedIsPushed(s: State)
    requires Conserved(s) && Numbering(s)
    ensures s.books.expected <= s.pushed
  {
    hide InHand, Sequences, UpTo;
    if s.books.expected > 0 {
      var k := s.books.expected - 1;
      UpToHas(s.books.expected, k);
      assert Arrived(s.books)[k] >= 1 && Beyond(s)[k] >= 1;
      BeyondIsTaken(s, k);
    }
  }

  /** At any two moments of any two runs on the same input, one export is a prefix of the other. */
  lemma ExportsNeverDisagree(c: Config, labels: seq<Label>, trace: seq<State>, n: nat,
                             c': Config, labels': seq<Label>, trace': seq<State>, n': nat)
    requires IsRun(c, labels, trace) && n < |trace|
    requires IsRun(c', labels', trace') && n' < |trace'|
    requires c.input == c'.input
    ensures trace[n].books.written <= trace'[n'].books.written || trace'[n'].books.written <= trace[n].books.written
  {
    hide IsRun, FramesOf, Reflects, WriterFailed;
    OutputFollowsInput(c, labels, trace, n);
    OutputFollowsInput(c', labels', trace', n');
    assert Results(c) == Results(c');
  }

  /** A return without an error means that everything submitted has been treated and nothing is left. */
  lemma CleanReturnIsComplete(c: Config, labels: seq<Label>, trace: seq<State>, n: nat)
    requires ValidOptions(c) && IsRun(c, labels, trace) && n < |trace| && trace[n].main == Returned
    ensures var s := trace[n];
            && s.error == None && s.lost == multiset{}
            && s.raw == [] && s.queue == [] && s.books.pending == map[]
            && s.received == s.next == s.books.expected == s.books.decoded + s.books.rejected
            && |s.books.written| == s.books.decoded
            && s.received <= |c.input| && Reflects(c.health, s.books, Results(c)[..s.received])
            && (!s.stopRequested ==> c.replay && s.received == |c.input|)
  {
    hide IsRun, Results, UpTo, FramesOf, Observed;
    var s := trace[n];
    ReachableInv(c, labels, trace, n);
    assert AllExited(s.decoders) && s.writer == WriterExited;
    assert s.decoders[0] == DecoderExited;
    NothingInHand(s.decoders);
    assert s.lost == multiset{};
    assert Sequences(s.queue) == multiset{};
    assert Beyond(s) == Arrived(s.books);
    ArrivedAll(s.books);
    UpToSize(Taken(s));
  }

  /** Clean returns after the same number of frames agree on everything, whatever else differs. */
  lemma CleanReturnsAgree(c: Config, labels: seq<Label>, trace: seq<State>, n: nat,
                          c': Config, labels': seq<Label>, trace': seq<State>, n': nat)
    requires ValidOptions(c) && IsRun(c, labels, trace) && n < |trace| && trace[n].main == Returned
    requires ValidOptions(c') && IsRun(c', labels', trace') && n' < |trace'| && trace'[n'].main == Returned
    requires c'.input == c.input && c'.health == c.health && trace'[n'].next == trace[n].next
    ensures var b, b' := trace[n].books, trace'[n'].books;
            && b'.written == b.written && b'.decoded == b.decoded && b'.rejected == b.rejected
            && b'.health == b.health && b'.transitions == b.transitions
  {
    hide IsRun, FramesOf, After, TransitionsOf, SamplesOf, DecodeFrame;
    CleanReturnIsComplete(c, labels, trace, n);
    CleanReturnIsComplete(c', labels', trace', n');
    assert Results(c') == Results(c);
  }

  lemma StepKeepsError(c: Config, s: State, l: Label)
    requires Enabled(c, s, l) && s.error.Some?
    ensures Apply(c, s, l).error == s.error
  {
    hide MainApply, DecoderApply, WriterApply, MainEnabled, DecoderEnabled, WriterEnabled;
    match l {
      case Main(a) => MainKeepsError(c, s, a);
      case Decoder(i, a) => DecoderKeepsError(c, s, i, a);
      case Writer(a) => WriterKeepsError(c, s, a);
      case StopRequested =>
    }
  }

  lemma MainKeepsError(c: Config, s: State, a: MainAct)
    requires MainEnabled(c, s, a) && s.error.Some?
    ensures MainApply(c, s, a).error == s.error
  {
    hide FailStep;
    if a == MainFails {
      FailStepIsNarrow(s, s.main.stage, InputFailed);
    }
  }

  lemma DecoderKeepsError(c: Config, s: State, i: nat, a: DecoderAct)
    requires DecoderEnabled(c, s, i, a) && s.error.Some?
    ensures DecoderApply(c, s, i, a).error == s.error
  {
    hide FailStep, Held, DecodeFrame;
    if a == DecoderFails {
      FailStepIsNarrow(s, s.decoders[i].stage, DecoderFailed);
    }
  }

  lemma WriterKeepsError(c: Config, s: State, a: WriterAct)
    requires WriterEnabled(s, a) && s.error.Some?
    ensures WriterApply(c, s, a).error == s.error
  {
    hide FailStep, Process, Interrupted, Park;
    if a == WriterFails {
      FailStepIsNarrow(s, s.writer.stage, s.writer.failure);
    }
  }

  lemma ErrorShape(c: Config, s: State)
    requires Inv(c, s) && s.error.Some?
    ensures s.main != Returned && s.error.value in {InputFailed, DecoderFailed, OutputFailed}
  {
    hide Contents, Numbering, Conserved, Faithful, Captured, Excused, InputUsedUp;
    match s.error.value {
      case InputFailed =>
      case DecoderFailed =>
      case OutputFailed =>
      case Duplicate => assert false;
      case Gap => assert false;
    }
  }

  /**
   Once an error is stored it is the one that run() will rethrow, and it is never one of the two
   checks of the writer: a missing or repeated number is always the consequence of something else.
   */
  lemma {:induction false} FirstErrorIsTheOneReported(c: Config, labels: seq<Label>, trace: seq<State>, n: nat, m: nat)
    requires IsRun(c, labels, trace) && n <= m < |trace| && trace[n].error.Some?
    ensures trace[m].error == trace[n].error && trace[m].main != Returned
    ensures trace[n].error.value in {InputFailed, DecoderFailed, OutputFailed}
    decreases m
  {
    hide Apply, Enabled, Inv;
    ReachableInv(c, labels, trace, n);
    ErrorShape(c, trace[n]);
    if n < m {
      FirstErrorIsTheOneReported(c, labels, trace, n, m - 1);
      assert Enabled(c, trace[m - 1], labels[m - 1]) && trace[m - 1 + 1] == Apply(c, trace[m - 1], labels[m - 1]);
      StepKeepsError(c, trace[m - 1], labels[m - 1]);
      ReachableInv(c, labels, trace, m);
      ErrorShape(c, trace[m]);
    }
  }
}
