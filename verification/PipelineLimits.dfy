/**
 What is bounded in the pipeline and what is not: the counters' lag and the map of parked results.
 */
module PipelineLimits {
  import opened Bytes
  import opened FrameCodec
  import opened OrderedWriter
  import opened Pipeline
  import opened PipelineInvariant
  import opened PipelineTheorems

  // ---------------------------------------------------------------- Building a run

  /** A run with one more step. */
  lemma Extend(c: Config, labels: seq<Label>, trace: seq<State>, l: Label)
    returns (labels': seq<Label>, trace': seq<State>)
    requires IsRun(c, labels, trace) && Enabled(c, trace[|labels|], l)
    ensures IsRun(c, labels', trace') && labels' == labels + [l]
    ensures trace'[|labels'|] == Apply(c, trace[|labels|], l)
  {
    hide Enabled, Apply;
    labels', trace' := labels + [l], trace + [Apply(c, trace[|labels|], l)];
    forall i | 0 <= i < |labels'|
      ensures Enabled(c, trace'[i], labels'[i]) && trace'[i + 1] == Apply(c, trace'[i], labels'[i])
    {
      if i < |labels| {
        assert Enabled(c, trace[i], labels[i]) && trace[i + 1] == Apply(c, trace[i], labels[i]);
      }
    }
  }

  lemma EmptyRun(c: Config) returns (labels: seq<Label>, trace: seq<State>)
    ensures IsRun(c, labels, trace) && labels == [] && trace == [Initial(c)]
  {
    labels, trace := [], [Initial(c)];
  }

  // ---------------------------------------------------------------- The counters

  lemma CountIsBounded(c: Config, s: State)
    requires Inv(c, s)
    ensures s.books.decoded + s.books.rejected <= s.pushed
    ensures s.pushed == s.received + (if s.main == Counting then 1 else 0)
  {
    hide InHand, Sequences, UpTo, Results, Observed, FramesOf, Contents, Captured, Ordered, Excused, NoFalseAlarm,
         InputUsedUp, Bounded, Alarmed;
    TreatedIsPushed(s);
  }

  /**
   decoded + rejected is ahead of received exactly while the producer has yet to count a push and
   the writer has already counted every pushed frame, that one included; then by one.
   */
  lemma CounterLag(c: Config, labels: seq<Label>, trace: seq<State>, n: nat)
    requires IsRun(c, labels, trace) && n < |trace|
    ensures var s := trace[n];
            var counted := s.books.decoded + s.books.rejected;
            && (counted > s.received <==> s.main == Counting && counted == s.pushed)
            && (counted > s.received ==> counted == s.received + 1)
  {
    hide IsRun, Inv;
    ReachableInv(c, labels, trace, n);
    CountIsBounded(c, trace[n]);
  }

  /** The lag occurs, whatever the options: a frame can be treated before it is counted as received. */
  lemma CounterLagOccurs(c: Config) returns (labels: seq<Label>, trace: seq<State>)
    requires ValidOptions(c) && c.input != []
    ensures IsRun(c, labels, trace)
    ensures var s := trace[|labels|]; s.received == 0 && s.books.decoded + s.books.rejected == 1
  {
    hide IsRun, DecodeFrame, StationHealth.Record;
    labels, trace := EmptyRun(c);
    labels, trace := Extend(c, labels, trace, Main(Submit));
    labels, trace := Extend(c, labels, trace, Main(PushRaw));
    labels, trace := Extend(c, labels, trace, Decoder(0, PopRaw));
    labels, trace := Extend(c, labels, trace, Decoder(0, PushItem));
    labels, trace := Extend(c, labels, trace, Writer(PopItem));
    labels, trace := Extend(c, labels, trace, Writer(Treat));
  }

  // ---------------------------------------------------------------- One decoder parks at most one result

  /** With one decoder the numbers travel in line, and what is parked is treated next. */
  ghost predicate InLine(s: State) {
    && |s.decoders| == 1
    && s.books.pending.Keys <= {s.books.expected}
    && (s.writer == Awaiting || s.writer == Finishing ==> s.books.pending == map[])
    && (s.writer == Awaiting || s.writer == Draining || s.writer == Finishing ==> QueueInLine(s))
  }

  /** What has left the raw queue and is not treated, from the writer back to the decoder. */
  ghost predicate QueueInLine(s: State)
    requires |s.decoders| == 1
  {
    var front := s.books.expected + |s.books.pending|;
    && (forall j :: 0 <= j < |s.queue| ==> s.queue[j].sequence == front + j)
    && (s.decoders[0] == Popping ==> Taken(s) == front + |s.queue|)
    && (s.decoders[0].Holding? ==> s.decoders[0].work.sequence == front + |s.queue| && Taken(s) == front + |s.queue| + 1)
  }

  lemma InitialInLine(c: Config)
    requires c.decoders == 1
    ensures InLine(Initial(c))
  {
  }

  lemma MainKeepsInLine(c: Config, s: State, a: MainAct)
    requires InLine(s) && MainEnabled(c, s, a)
    ensures InLine(MainApply(c, s, a))
  {
    hide FailStep;
    if a == MainFails {
      FailStepIsNarrow(s, s.main.stage, InputFailed);
    }
  }

  lemma DecoderKeepsInLine(c: Config, s: State, i: nat, a: DecoderAct)
    requires Numbering(s) && InLine(s) && DecoderEnabled(c, s, i, a)
    ensures InLine(DecoderApply(c, s, i, a))
  {
    hide FailStep, DecodeFrame, Held;
    if a == DecoderFails {
      FailStepIsNarrow(s, s.decoders[i].stage, DecoderFailed);
    }
  }

  lemma PopKeepsInLine(c: Config, s: State)
    requires InLine(s) && WriterEnabled(s, PopItem)
    ensures InLine(WriterApply(c, s, PopItem))
  {
    var n := WriterApply(c, s, PopItem);
    assert s.queue[0].sequence == s.books.expected;
    assert n.books.pending.Keys == {s.books.expected};
    assert |n.books.pending| == |n.books.pending.Keys|;
  }

  lemma TreatKeepsInLine(c: Config, s: State)
    requires InLine(s) && WriterEnabled(s, Treat)
    ensures InLine(WriterApply(c, s, Treat))
  {
    hide Process;
    ProcessKeeps(c.health, s.books);
    ProcessShrinks(s.books);
    assert s.books.pending.Keys == {s.books.expected};
    assert |s.books.pending| == |s.books.pending.Keys| == 1;
    assert (s.books.pending - {s.books.expected}).Keys == {};
  }

  lemma WriterKeepsInLine(c: Config, s: State, a: WriterAct)
    requires InLine(s) && WriterEnabled(s, a)
    ensures InLine(WriterApply(c, s, a))
  {
    hide Process, Interrupted, Park, FailStep, QueueInLine;
    match a {
      case PopItem => PopKeepsInLine(c, s);
      case Treat => TreatKeepsInLine(c, s);
      case TreatThrows(p) => InterruptedKeeps(c.health, s.books, s.books.pending[s.books.expected], p);
      case WriterFails => FailStepIsNarrow(s, s.writer.stage, s.writer.failure);
      case CaughtUp => CaughtUpKeepsInLine(c, s);
      case SeeQueueEnd => SeeQueueEndKeepsInLine(c, s);
      case _ =>
    }
  }

  lemma CaughtUpKeepsInLine(c: Config, s: State)
    requires InLine(s) && WriterEnabled(s, CaughtUp)
    ensures InLine(WriterApply(c, s, CaughtUp))
  {
    assert s.books.pending.Keys == {};
  }

  lemma SeeQueueEndKeepsInLine(c: Config, s: State)
    requires InLine(s) && WriterEnabled(s, SeeQueueEnd)
    ensures InLine(WriterApply(c, s, SeeQueueEnd))
  {
  }

  lemma {:induction false} ReachableInLine(c: Config, labels: seq<Label>, trace: seq<State>, n: nat)
    requires c.decoders == 1 && IsRun(c, labels, trace) && n < |trace|
    ensures InLine(trace[n])
  {
    hide InLine, Inv, MainApply, DecoderApply, WriterApply, MainEnabled, DecoderEnabled, WriterEnabled;
    if n == 0 {
      InitialInLine(c);
    } else {
      ReachableInLine(c, labels, trace, n - 1);
      var s := trace[n - 1];
      assert Enabled(c, s, labels[n - 1]) && trace[n - 1 + 1] == Apply(c, s, labels[n - 1]);
      ReachableInv(c, labels, trace, n - 1);
      match labels[n - 1] {
        case Main(a) => MainKeepsInLine(c, s, a);
        case Decoder(i, a) =>
          InvIsNumbering(c, s);
          DecoderKeepsInLine(c, s, i, a);
        case Writer(a) => WriterKeepsInLine(c, s, a);
        case StopRequested => StopKeepsInLine(s);
      }
    }
  }

  lemma InvIsNumbering(c: Config, s: State)
    requires Inv(c, s)
    ensures Numbering(s)
  {
  }

  lemma StopKeepsInLine(s: State)
    requires InLine(s)
    ensures InLine(s.(running := false, stopRequested := true))
  {
  }

  /** With a single decoder at most one result is ever parked. */
  lemma OneDecoderParksOne(c: Config, labels: seq<Label>, trace: seq<State>, n: nat)
    requires c.decoders == 1 && IsRun(c, labels, trace) && n < |trace|
    ensures |trace[n].books.pending| <= 1
  {
    hide IsRun, QueueInLine;
    ReachableInLine(c, labels, trace, n);
    var b := trace[n].books;
    SubsetOfOne(b.pending.Keys, b.expected);
    assert |b.pending| == |b.pending.Keys|;
  }

  lemma SubsetOfOne(x: set<nat>, k: nat)
    requires x <= {k}
    ensures |x| <= 1
  {
    if k in x {
      assert x == {k};
    } else {
      assert x == {};
    }
  }

  // ---------------------------------------------------------------- Two decoders can park any number

  /** The results 1 to `k`, waiting for number 0. */
  ghost function ParkedUpTo(c: Config, k: nat): map<nat, ParseResult>
    requires k < |c.input|
  {
    if k == 0 then map[] else ParkedUpTo(c, k - 1)[k := DecodeFrame(c.input[k])]
  }

  lemma {:induction k} ParkedSize(c: Config, k: nat)
    requires k < |c.input|
    ensures |ParkedUpTo(c, k)| == k && forall i :: i in ParkedUpTo(c, k) ==> 1 <= i <= k
  {
    hide DecodeFrame;
    if k > 0 {
      ParkedSize(c, k - 1);
      assert ParkedUpTo(c, k).Keys == ParkedUpTo(c, k - 1).Keys + {k};
    }
  }

  /** Decoder 0 still holds frame 0; decoder 1 has brought 1 to `k` through to the writer. */
  ghost function Stalled(c: Config, k: nat): State
    requires 2 <= c.decoders && k < |c.input|
  {
    Initial(c).(next := k + 1, pushed := k + 1, received := k + 1,
      decoders := Initial(c).decoders[0 := Holding(Work(0, c.input[0]))],
      books := START.(pending := ParkedUpTo(c, k)))
  }

  /** One more frame submitted and taken from the raw queue by decoder `i`. */
  lemma Feed(c: Config, labels: seq<Label>, trace: seq<State>, i: nat) returns (labels': seq<Label>, trace': seq<State>)
    requires IsRun(c, labels, trace)
    requires var s := trace[|labels|];
             && s.main == Receiving && s.next < |c.input| && s.raw == [] && !s.rawClosed
             && i < |s.decoders| && s.decoders[i] == Popping
    ensures IsRun(c, labels', trace')
    ensures var s := trace[|labels|];
            trace'[|labels'|] == s.(next := s.next + 1, pushed := s.pushed + 1, received := s.received + 1,
                                    decoders := s.decoders[i := Holding(Work(s.next, c.input[s.next]))])
  {
    hide IsRun;
    labels', trace' := Extend(c, labels, trace, Main(Submit));
    labels', trace' := Extend(c, labels', trace', Main(PushRaw));
    labels', trace' := Extend(c, labels', trace', Main(CountReceived));
    labels', trace' := Extend(c, labels', trace', Decoder(i, PopRaw));
  }

  /** Decoder `i` passes its frame on and the writer parks it. */
  lemma Shelve(c: Config, labels: seq<Label>, trace: seq<State>, i: nat) returns (labels': seq<Label>, trace': seq<State>)
    requires IsRun(c, labels, trace)
    requires var s := trace[|labels|];
             && s.queue == [] && !s.queueClosed && s.writer == Awaiting && i < |s.decoders| && s.decoders[i].Holding?
             && s.decoders[i].work.sequence !in s.books.pending && s.decoders[i].work.sequence != s.books.expected
             && s.books.expected !in s.books.pending
    ensures IsRun(c, labels', trace')
    ensures var s := trace[|labels|]; var w := s.decoders[i].work;
            trace'[|labels'|] == s.(decoders := s.decoders[i := Popping],
                                    books := Park(s.books, Item(w.sequence, DecodeFrame(w.bytes))))
  {
    hide IsRun, DecodeFrame;
    labels', trace' := Extend(c, labels, trace, Decoder(i, PushItem));
    labels', trace' := Extend(c, labels', trace', Writer(PopItem));
    labels', trace' := Extend(c, labels', trace', Writer(CaughtUp));
  }

  lemma {:induction false} StalledIsReachable(c: Config, k: nat) returns (labels: seq<Label>, trace: seq<State>)
    requires 2 <= c.decoders && k < |c.input|
    ensures IsRun(c, labels, trace) && trace[|labels|] == Stalled(c, k)
    decreases k
  {
    hide IsRun, DecodeFrame;
    if k == 0 {
      labels, trace := EmptyRun(c);
      labels, trace := Feed(c, labels, trace, 0);
    } else {
      labels, trace := StalledIsReachable(c, k - 1);
      ParkedSize(c, k - 1);
      labels, trace := Feed(c, labels, trace, 1);
      labels, trace := Shelve(c, labels, trace, 1);
      OneIsFreeAgain(c, Work(k, c.input[k]), Work(0, c.input[0]));
    }
  }

  lemma OneIsFreeAgain(c: Config, w: Work, first: Work)
    requires 2 <= c.decoders
    ensures var d := Initial(c).decoders[0 := Holding(first)]; d[1 := Holding(w)][1 := Popping] == d
  {
  }

  /** With two decoders or more there is a run that parks all frames but the first. */
  lemma TwoDecodersParkAnyNumber(c: Config, k: nat) returns (labels: seq<Label>, trace: seq<State>)
    requires 2 <= c.decoders && k < |c.input|
    ensures IsRun(c, labels, trace) && |trace[|labels|].books.pending| == k
  {
    hide IsRun;
    labels, trace := StalledIsReachable(c, k);
    ParkedSize(c, k);
  }
}
