/**
 The pipeline on its real queues: the threads of module Pipeline, but every push and pop goes
 through the monitor of module BlockingQueue, with its sleeping and woken threads, late
 notifications and broadcasts.

 Every run of the whole is a run of Pipeline with steps in between in which only the monitors
 move, so all theorems about Pipeline hold of it; and the whole cannot get stuck or go on for ever.
 */
module PipelineMonitors {
  import opened Bytes
  import opened FrameCodec
  import opened OrderedWriter
  import opened Pipeline
  import opened PipelineInvariant
  import opened PipelineProgress
  import opened PipelineLimits
  import Q = BlockingQueue

  /** In `raw` thread 0 is the producer, in `dec` it is the writer; decoder `i` is thread `i + 1` of both. */
  datatype Whole = Whole(s: State, raw: Q.Monitor<Work>, dec: Q.Monitor<Item>)

  /** `throws` says that parking the popped item fails. */
  datatype Step =
    | Local(l: Label)
    | Raw(r: Q.Label<Work>)
    | Dec(d: Q.Label<Item>, throws: bool)

  function Start(c: Config): Whole {
    Whole(Initial(c), Q.Fresh(c.capacity), Q.Fresh(c.capacity))
  }

  // ---------------------------------------------------------------- Steps

  /** The steps that are answers of a queue. */
  predicate UsesQueue(l: Label) {
    match l
    case Main(a) => a == PushRaw || a == PushRefused
    case Decoder(_, a) => a == PopRaw || a == SeeRawEnd || a == PushItem || a == ItemRefused
    case Writer(a) => a == PopItem || a == ParkThrows || a == SeeQueueEnd
    case StopRequested => false
  }

  predicate Waits<T>(m: Q.Monitor<T>, t: nat) { Q.WaitsToPush(m, t) || Q.WaitsToPop(m, t) }

  /** The thread that takes the step is not waiting in a queue. */
  predicate Awake(w: Whole, l: Label) {
    match l
    case Main(_) => !Waits(w.raw, 0)
    case Decoder(i, _) => !Waits(w.raw, i + 1) && !Waits(w.dec, i + 1)
    case Writer(_) => !Waits(w.dec, 0)
    case StopRequested => true
  }

  /** The step closes the raw queue. */
  predicate ClosesRaw(s: State, l: Label) {
    match l
    case Main(a) => a == CloseRaw || (a == MainFails && s.main == MainFailing(ClosingRaw))
    case Decoder(i, a) => a == DecoderFails && i < |s.decoders| && s.decoders[i] == DecoderFailing(ClosingRaw)
    case Writer(a) => a == WriterFails && s.writer.WriterFailing? && s.writer.stage == ClosingRaw
    case StopRequested => false
  }

  /** The step closes the decoded queue. */
  predicate ClosesQueue(s: State, l: Label) {
    match l
    case Main(a) => a == CloseQueue || (a == MainFails && s.main == MainFailing(ClosingDecoded))
    case Decoder(i, a) => a == DecoderFails && i < |s.decoders| && s.decoders[i] == DecoderFailing(ClosingDecoded)
    case Writer(a) => a == WriterFails && s.writer.WriterFailing? && s.writer.stage == ClosingDecoded
    case StopRequested => false
  }

  function ItemOf(work: Work): Item { Item(work.sequence, DecodeFrame(work.bytes)) }

  /** A thread calls the raw queue only where its code does. */
  predicate RawTurn(s: State, q: Q.Label<Work>) {
    match q
    case EnterPush(t, v) => t == 0 && s.main == Pushing(v)
    case EnterPop(t) => 1 <= t <= |s.decoders| && s.decoders[t - 1] == Popping
    case Close => false
    case _ => true
  }

  predicate DecTurn(s: State, q: Q.Label<Item>) {
    match q
    case EnterPush(t, v) => 1 <= t <= |s.decoders| && s.decoders[t - 1].Holding? && v == ItemOf(s.decoders[t - 1].work)
    case EnterPop(t) => t == 0 && s.writer == Awaiting
    case Close => false
    case _ => true
  }

  predicate StepEnabled(c: Config, w: Whole, st: Step) {
    match st
    case Local(l) => !UsesQueue(l) && Enabled(c, w.s, l) && Awake(w, l)
    case Raw(q) => Q.Enabled(w.raw, q) && RawTurn(w.s, q)
    case Dec(q, _) => Q.Enabled(w.dec, q) && DecTurn(w.s, q)
  }

  /** What the caller does with the answer, once there is one. */
  function RawAnswer(m: Q.Monitor<Work>, q: Q.Label<Work>): Option<Label> {
    match q
    case EnterPush(_, _) => RawPushAnswer(m)
    case ResumePush(_) => RawPushAnswer(m)
    case EnterPop(t) => RawPopAnswer(m, t)
    case ResumePop(t) => RawPopAnswer(m, t)
    case _ => None
  }

  function RawPushAnswer(m: Q.Monitor<Work>): Option<Label> {
    if Q.CanPush(m.capacity, |m.queue|, m.closed) then Some(Main(if m.closed then PushRefused else PushRaw)) else None
  }

  function RawPopAnswer(m: Q.Monitor<Work>, t: nat): Option<Label> {
    if Q.CanPop(|m.queue|, m.closed) && t > 0 then Some(Decoder(t - 1, if m.queue == [] then SeeRawEnd else PopRaw))
    else None
  }

  function DecAnswer(m: Q.Monitor<Item>, q: Q.Label<Item>, throws: bool): Option<Label> {
    match q
    case EnterPush(t, _) => DecPushAnswer(m, t)
    case ResumePush(t) => DecPushAnswer(m, t)
    case EnterPop(_) => DecPopAnswer(m, throws)
    case ResumePop(_) => DecPopAnswer(m, throws)
    case _ => None
  }

  function DecPushAnswer(m: Q.Monitor<Item>, t: nat): Option<Label> {
    if Q.CanPush(m.capacity, |m.queue|, m.closed) && t > 0
    then Some(Decoder(t - 1, if m.closed then ItemRefused else PushItem))
    else None
  }

  function DecPopAnswer(m: Q.Monitor<Item>, throws: bool): Option<Label> {
    if Q.CanPop(|m.queue|, m.closed)
    then Some(Writer(if m.queue == [] then SeeQueueEnd else if throws then ParkThrows else PopItem))
    else None
  }

  /** The threads' part of a step; `AnswerIsEnabled` shows that the guard never fails. */
  function Take(c: Config, s: State, l: Option<Label>): State {
    if l.Some? && Enabled(c, s, l.value) then Apply(c, s, l.value) else s
  }

  function StepApply(c: Config, w: Whole, st: Step): Whole
    requires StepEnabled(c, w, st)
  {
    match st
    case Local(l) =>
      Whole(Apply(c, w.s, l),
            if ClosesRaw(w.s, l) then Q.Apply(w.raw, Q.Close) else w.raw,
            if ClosesQueue(w.s, l) then Q.Apply(w.dec, Q.Close) else w.dec)
    case Raw(q) => Whole(Take(c, w.s, RawAnswer(w.raw, q)), Q.Apply(w.raw, q), w.dec)
    case Dec(q, throws) => Whole(Take(c, w.s, DecAnswer(w.dec, q, throws)), w.raw, Q.Apply(w.dec, q))
  }

  ghost predicate IsWholeRun(c: Config, steps: seq<Step>, trace: seq<Whole>) {
    && |trace| == |steps| + 1
    && trace[0] == Start(c)
    && forall i :: 0 <= i < |steps| ==>
         StepEnabled(c, trace[i], steps[i]) && trace[i + 1] == StepApply(c, trace[i], steps[i])
  }

  // ---------------------------------------------------------------- Invariant

  ghost predicate Sound<T>(m: Q.Monitor<T>) { Q.Consistent(m) && Q.NoLostWakeUp(m) }

  /** The monitor holds the queue of the state. */
  ghost predicate SameQueues(c: Config, w: Whole) {
    && w.raw.capacity == c.capacity && w.raw.queue == w.s.raw && w.raw.closed == w.s.rawClosed
    && w.dec.capacity == c.capacity && w.dec.queue == w.s.queue && w.dec.closed == w.s.queueClosed
  }

  /** Whoever waits in the raw queue is where its code calls it, and offers what it has in hand. */
  ghost predicate RawSeats(w: Whole) {
    && (forall t: nat :: Q.WaitsToPush(w.raw, t) ==>
          t == 0 && t in w.raw.offers && w.s.main == Pushing(w.raw.offers[t]))
    && (forall t: nat :: Q.WaitsToPop(w.raw, t) ==> 1 <= t <= |w.s.decoders| && w.s.decoders[t - 1] == Popping)
  }

  ghost predicate DecSeats(w: Whole) {
    && (forall t: nat :: Q.WaitsToPush(w.dec, t) ==>
          && 1 <= t <= |w.s.decoders| && w.s.decoders[t - 1].Holding?
          && t in w.dec.offers && w.dec.offers[t] == ItemOf(w.s.decoders[t - 1].work))
    && (forall t: nat :: Q.WaitsToPop(w.dec, t) ==> t == 0 && w.s.writer == Awaiting)
  }

  ghost predicate Tied(c: Config, w: Whole) {
    SameQueues(c, w) && RawSeats(w) && DecSeats(w) && Sound(w.raw) && Sound(w.dec)
  }

  lemma StartIsTied(c: Config)
    ensures Tied(c, Start(c))
  {
  }

  // ---------------------------------------------------------------- What a section of a monitor does

  /** `n` is `m` after thread `t` ran the push section with `v`. */
  lemma PushSection<T>(m: Q.Monitor<T>, q: Q.Label<T>, t: nat, v: T)
    requires Q.Placed(m) && Q.Enabled(m, q)
    requires q == Q.EnterPush(t, v) || (q == Q.ResumePush(t) && v == m.offers[t])
    ensures var n := Q.Apply(m, q);
            && n.capacity == m.capacity && n.closed == m.closed
            && (!Q.CanPush(m.capacity, |m.queue|, m.closed) ==> n.queue == m.queue && t in n.offers && n.offers[t] == v)
            && (Q.CanPush(m.capacity, |m.queue|, m.closed) ==>
                  n.queue == if m.closed then m.queue else m.queue + [v])
            && (Q.WaitsToPush(n, t) <==> !Q.CanPush(m.capacity, |m.queue|, m.closed))
            && (forall u :: u != t ==> Q.WaitsToPush(n, u) == Q.WaitsToPush(m, u))
            && (forall u :: u != t && u in m.offers ==> u in n.offers && n.offers[u] == m.offers[u])
            && (forall u :: Q.WaitsToPop(n, u) == Q.WaitsToPop(m, u))
  {
  }

  lemma PopSection<T>(m: Q.Monitor<T>, q: Q.Label<T>, t: nat)
    requires Q.Placed(m) && Q.Enabled(m, q) && (q == Q.EnterPop(t) || q == Q.ResumePop(t))
    ensures var n := Q.Apply(m, q);
            && n.capacity == m.capacity && n.closed == m.closed && n.offers == m.offers
            && n.queue == (if m.queue == [] then [] else m.queue[1..])
            && (Q.WaitsToPop(n, t) <==> !Q.CanPop(|m.queue|, m.closed))
            && (forall u :: u != t ==> Q.WaitsToPop(n, u) == Q.WaitsToPop(m, u))
            && (forall u :: Q.WaitsToPush(n, u) == Q.WaitsToPush(m, u))
  {
  }

  predicate IsSection<T>(q: Q.Label<T>) { q.EnterPush? || q.ResumePush? || q.EnterPop? || q.ResumePop? }

  /** Notifications, broadcasts, spurious wake-ups and closing change nobody's place in the code. */
  lemma OtherStep<T>(m: Q.Monitor<T>, q: Q.Label<T>)
    requires Q.Enabled(m, q) && !IsSection(q)
    ensures var n := Q.Apply(m, q);
            && n.capacity == m.capacity && n.queue == m.queue && n.offers == m.offers
            && n.closed == (m.closed || q == Q.Close)
            && (forall u :: Q.WaitsToPush(n, u) == Q.WaitsToPush(m, u))
            && (forall u :: Q.WaitsToPop(n, u) == Q.WaitsToPop(m, u))
  {
  }

  // ---------------------------------------------------------------- The threads' steps in the monitors' terms

  /** An answered push or pop is a step the thread can take. */
  lemma AnswerIsEnabled(c: Config, w: Whole, st: Step)
    requires Tied(c, w) && StepEnabled(c, w, st)
    ensures st.Raw? && RawAnswer(w.raw, st.r).Some? ==> Enabled(c, w.s, RawAnswer(w.raw, st.r).value)
    ensures st.Dec? && DecAnswer(w.dec, st.d, st.throws).Some? ==>
              Enabled(c, w.s, DecAnswer(w.dec, st.d, st.throws).value)
  {
    hide Sound, DecodeFrame;
    match st {
      case Raw(ResumePush(t)) => assert Q.WaitsToPush(w.raw, t);
      case Raw(ResumePop(t)) => assert Q.WaitsToPop(w.raw, t);
      case Dec(ResumePush(t), _) => assert Q.WaitsToPush(w.dec, t);
      case Dec(ResumePop(t), _) => assert Q.WaitsToPop(w.dec, t);
      case _ =>
    }
  }

  lemma FailStepCloses(s: State, stage: Stage, f: Failure)
    ensures var n := FailStep(s, stage, f);
            && n.rawClosed == (s.rawClosed || stage == ClosingRaw)
            && n.queueClosed == (s.queueClosed || stage == ClosingDecoded)
  {
  }

  /** A step of a thread by itself leaves the queues alone, but for closing them, and moves no other thread. */
  ghost predicate Tidy(s: State, l: Label, n: State) {
    && n.raw == s.raw && n.queue == s.queue && |n.decoders| == |s.decoders|
    && n.rawClosed == (s.rawClosed || ClosesRaw(s, l))
    && n.queueClosed == (s.queueClosed || ClosesQueue(s, l))
    && (!l.Main? ==> n.main == s.main) && (!l.Writer? ==> n.writer == s.writer)
    && (forall i :: 0 <= i < |s.decoders| && !(l.Decoder? && l.i == i) ==> n.decoders[i] == s.decoders[i])
  }

  lemma MainIsTidy(c: Config, s: State, a: MainAct)
    requires MainEnabled(c, s, a) && !UsesQueue(Main(a))
    ensures Tidy(s, Main(a), MainApply(c, s, a))
  {
    hide AllExited, FailStep;
    if a == MainFails {
      FailStepIsNarrow(s, s.main.stage, InputFailed);
      FailStepCloses(s, s.main.stage, InputFailed);
    }
  }

  lemma DecoderIsTidy(c: Config, s: State, i: nat, a: DecoderAct)
    requires DecoderEnabled(c, s, i, a) && !UsesQueue(Decoder(i, a))
    ensures Tidy(s, Decoder(i, a), DecoderApply(c, s, i, a))
  {
    hide Held, DecodeFrame, FailStep;
    if a == DecoderFails {
      FailStepIsNarrow(s, s.decoders[i].stage, DecoderFailed);
      FailStepCloses(s, s.decoders[i].stage, DecoderFailed);
    }
  }

  lemma WriterIsTidy(c: Config, s: State, a: WriterAct)
    requires WriterEnabled(s, a) && !UsesQueue(Writer(a))
    ensures Tidy(s, Writer(a), WriterApply(c, s, a))
  {
    hide Process, Interrupted, Park, FailStep;
    if a == WriterFails {
      FailStepIsNarrow(s, s.writer.stage, s.writer.failure);
      FailStepCloses(s, s.writer.stage, s.writer.failure);
    }
  }

  lemma LocalIsTidy(c: Config, s: State, l: Label)
    requires Enabled(c, s, l) && !UsesQueue(l)
    ensures Tidy(s, l, Apply(c, s, l))
  {
    hide MainEnabled, DecoderEnabled, WriterEnabled, MainApply, DecoderApply, WriterApply, Tidy, UsesQueue;
    match l {
      case Main(a) => MainIsTidy(c, s, a);
      case Decoder(i, a) => DecoderIsTidy(c, s, i, a);
      case Writer(a) => WriterIsTidy(c, s, a);
      case StopRequested => StopIsTidy(s);
    }
  }

  lemma StopIsTidy(s: State)
    ensures Tidy(s, StopRequested, s.(running := false, stopRequested := true))
  {
  }

  // ---------------------------------------------------------------- Every step keeps the monitors tied to the threads

  lemma LocalKeepsTied(c: Config, w: Whole, l: Label)
    requires SameQueues(c, w) && RawSeats(w) && DecSeats(w) && StepEnabled(c, w, Local(l))
    ensures var n := StepApply(c, w, Local(l)); SameQueues(c, n) && RawSeats(n) && DecSeats(n)
  {
    hide Enabled, Apply, UsesQueue, Q.Apply, Q.WaitsToPush, Q.WaitsToPop, ItemOf, ClosesRaw, ClosesQueue;
    LocalIsTidy(c, w.s, l);
    CloseIsOpen(w.raw);
    CloseIsOpen(w.dec);
    OtherStep(w.raw, Q.Close);
    OtherStep(w.dec, Q.Close);
  }

  lemma CloseIsOpen<T>(m: Q.Monitor<T>)
    ensures Q.Enabled(m, Q.Close)
  {
  }

  lemma RawPushKeepsTied(c: Config, w: Whole, q: Q.Label<Work>)
    requires Tied(c, w) && StepEnabled(c, w, Raw(q)) && (q.EnterPush? || q.ResumePush?)
    ensures var n := StepApply(c, w, Raw(q)); SameQueues(c, n) && RawSeats(n) && DecSeats(n)
  {
    hide Q.Apply, Q.WaitsToPop, Q.Linear, Q.NoLostWakeUp, ItemOf;
    AnswerIsEnabled(c, w, Raw(q));
    assert q.ResumePush? ==> Q.WaitsToPush(w.raw, q.thread);
    PushSection(w.raw, q, 0, w.s.main.work);
  }

  lemma RawPopKeepsTied(c: Config, w: Whole, q: Q.Label<Work>)
    requires Tied(c, w) && StepEnabled(c, w, Raw(q)) && (q.EnterPop? || q.ResumePop?)
    ensures var n := StepApply(c, w, Raw(q)); SameQueues(c, n) && RawSeats(n) && DecSeats(n)
  {
    hide Q.Apply, Q.WaitsToPush, Q.Linear, Q.NoLostWakeUp, ItemOf;
    AnswerIsEnabled(c, w, Raw(q));
    assert q.ResumePop? ==> Q.WaitsToPop(w.raw, q.thread);
    PopSection(w.raw, q, q.thread);
  }

  lemma DecPushKeepsTied(c: Config, w: Whole, q: Q.Label<Item>, throws: bool)
    requires Tied(c, w) && StepEnabled(c, w, Dec(q, throws)) && (q.EnterPush? || q.ResumePush?)
    ensures var n := StepApply(c, w, Dec(q, throws)); SameQueues(c, n) && RawSeats(n) && DecSeats(n)
  {
    hide Q.Apply, Q.WaitsToPop, Q.Linear, Q.NoLostWakeUp, DecodeFrame;
    AnswerIsEnabled(c, w, Dec(q, throws));
    assert q.ResumePush? ==> Q.WaitsToPush(w.dec, q.thread);
    PushSection(w.dec, q, q.thread, ItemOf(w.s.decoders[q.thread - 1].work));
  }

  lemma DecPopKeepsTied(c: Config, w: Whole, q: Q.Label<Item>, throws: bool)
    requires Tied(c, w) && StepEnabled(c, w, Dec(q, throws)) && (q.EnterPop? || q.ResumePop?)
    ensures var n := StepApply(c, w, Dec(q, throws)); SameQueues(c, n) && RawSeats(n) && DecSeats(n)
  {
    hide Q.Apply, Q.WaitsToPush, Q.Linear, Q.NoLostWakeUp, ItemOf, Park;
    AnswerIsEnabled(c, w, Dec(q, throws));
    assert q.ResumePop? ==> Q.WaitsToPop(w.dec, q.thread);
    PopSection(w.dec, q, 0);
  }

  lemma OtherKeepsTied(c: Config, w: Whole, st: Step)
    requires SameQueues(c, w) && RawSeats(w) && DecSeats(w) && StepEnabled(c, w, st)
    requires (st.Raw? && !IsSection(st.r)) || (st.Dec? && !IsSection(st.d))
    ensures var n := StepApply(c, w, st); n.s == w.s && SameQueues(c, n) && RawSeats(n) && DecSeats(n)
  {
    hide Q.Apply, Q.WaitsToPush, Q.WaitsToPop, Enabled, Apply, ItemOf;
    match st {
      case Raw(q) => OtherStep(w.raw, q);
      case Dec(q, _) => OtherStep(w.dec, q);
    }
  }

  lemma StepKeepsSound(c: Config, w: Whole, st: Step)
    requires Sound(w.raw) && Sound(w.dec) && StepEnabled(c, w, st)
    ensures var n := StepApply(c, w, st); Sound(n.raw) && Sound(n.dec)
  {
    hide Q.Apply, Q.Enabled, Q.Consistent, Q.NoLostWakeUp, Take, Enabled, Apply, RawAnswer, DecAnswer;
    match st {
      case Local(l) =>
        CloseIsOpen(w.raw);
        CloseIsOpen(w.dec);
        Q.StepKeepsInvariant(w.raw, Q.Close);
        Q.StepKeepsInvariant(w.dec, Q.Close);
      case Raw(q) => Q.StepKeepsInvariant(w.raw, q);
      case Dec(q, _) => Q.StepKeepsInvariant(w.dec, q);
    }
  }

  lemma StepKeepsTied(c: Config, w: Whole, st: Step)
    requires Tied(c, w) && StepEnabled(c, w, st)
    ensures Tied(c, StepApply(c, w, st))
  {
    hide SameQueues, RawSeats, DecSeats, Sound, StepApply, StepEnabled;
    StepKeepsSound(c, w, st);
    match st {
      case Local(l) => LocalKeepsTied(c, w, l);
      case Raw(q) =>
        if q.EnterPush? || q.ResumePush? {
          RawPushKeepsTied(c, w, q);
        } else if q.EnterPop? || q.ResumePop? {
          RawPopKeepsTied(c, w, q);
        } else {
          OtherKeepsTied(c, w, st);
        }
      case Dec(q, throws) =>
        if q.EnterPush? || q.ResumePush? {
          DecPushKeepsTied(c, w, q, throws);
        } else if q.EnterPop? || q.ResumePop? {
          DecPopKeepsTied(c, w, q, throws);
        } else {
          OtherKeepsTied(c, w, st);
        }
    }
  }

  lemma {:induction false} ReachableTied(c: Config, steps: seq<Step>, trace: seq<Whole>, n: nat)
    requires IsWholeRun(c, steps, trace) && n < |trace|
    ensures Tied(c, trace[n])
  {
    hide Tied, StepApply, StepEnabled;
    if n == 0 {
      StartIsTied(c);
    } else {
      ReachableTied(c, steps, trace, n - 1);
      assert StepEnabled(c, trace[n - 1], steps[n - 1])
          && trace[n - 1 + 1] == StepApply(c, trace[n - 1], steps[n - 1]);
      StepKeepsTied(c, trace[n - 1], steps[n - 1]);
    }
  }

  // ---------------------------------------------------------------- The whole refines the pipeline

  predicate Spurious(st: Step) {
    match st
    case Local(_) => false
    case Raw(q) => q.SpuriousConsumer? || q.SpuriousProducer?
    case Dec(q, _) => q.SpuriousConsumer? || q.SpuriousProducer?
  }

  /** Throwing, and being asked to stop. */
  predicate Unruly(st: Step) {
    match st
    case Local(l) => Disturbs(l)
    case Raw(_) => false
    case Dec(_, throws) => throws
  }

  /** The thread's part of a step, if a thread of the pipeline moves at all. */
  function Seen(w: Whole, st: Step): Option<Label> {
    match st
    case Local(l) => Some(l)
    case Raw(q) => RawAnswer(w.raw, q)
    case Dec(q, throws) => DecAnswer(w.dec, q, throws)
  }

  lemma StepIsSeen(c: Config, w: Whole, st: Step)
    requires Tied(c, w) && StepEnabled(c, w, st)
    ensures match Seen(w, st)
            case None => StepApply(c, w, st).s == w.s
            case Some(l) => Enabled(c, w.s, l) && StepApply(c, w, st).s == Apply(c, w.s, l)
    ensures Seen(w, st).Some? && !Unruly(st) ==> !Disturbs(Seen(w, st).value)
  {
    hide Tied, Enabled, Apply, Q.Apply, Q.Enabled, ClosesRaw, ClosesQueue;
    AnswerIsEnabled(c, w, st);
  }

  /** Every run on the monitors is, in what the threads do, a run of the pipeline. */
  lemma {:induction false} Projection(c: Config, steps: seq<Step>, trace: seq<Whole>, n: nat)
    returns (labels: seq<Label>, states: seq<State>)
    requires IsWholeRun(c, steps, trace) && n < |trace|
    ensures IsRun(c, labels, states) && states[|labels|] == trace[n].s
    ensures (forall i :: 0 <= i < n ==> !Unruly(steps[i])) ==> forall i :: 0 <= i < |labels| ==> !Disturbs(labels[i])
  {
    hide IsRun, Tied, StepApply, StepEnabled, Enabled, Apply, Unruly, Disturbs, Seen;
    if n == 0 {
      labels, states := EmptyRun(c);
    } else {
      labels, states := Projection(c, steps, trace, n - 1);
      ReachableTied(c, steps, trace, n - 1);
      var w, st := trace[n - 1], steps[n - 1];
      assert StepEnabled(c, w, st) && trace[n - 1 + 1] == StepApply(c, w, st);
      StepIsSeen(c, w, st);
      if Seen(w, st).Some? {
        labels, states := Extend(c, labels, states, Seen(w, st).value);
      }
    }
  }

  // ---------------------------------------------------------------- The whole does not get stuck

  /** A thread whose pop would be answered can go on, or the monitor still has to wake it. */
  lemma ConsumerHasStep<T>(m: Q.Monitor<T>, t: nat) returns (q: Q.Label<T>)
    requires Sound(m) && Q.CanPop(|m.queue|, m.closed) && !Q.WaitsToPush(m, t)
    ensures Q.Enabled(m, q) && (q == Q.EnterPop(t) || Q.Internal(q))
  {
    if t in m.wokenConsumers {
      q := Q.ResumePop(t);
    } else if t in m.sleepingConsumers {
      if Q.Settled(m) {
        Q.SleepersHaveReason(m);
      }
      q := Q.UnsettledCanStep(m);
    } else {
      q := Q.EnterPop(t);
    }
  }

  lemma ProducerHasStep<T>(m: Q.Monitor<T>, t: nat, v: T) returns (q: Q.Label<T>)
    requires Sound(m) && Q.CanPush(m.capacity, |m.queue|, m.closed) && !Q.WaitsToPop(m, t)
    ensures Q.Enabled(m, q) && (q == Q.EnterPush(t, v) || Q.Internal(q))
  {
    if t in m.wokenProducers {
      q := Q.ResumePush(t);
    } else if t in m.sleepingProducers {
      if Q.Settled(m) {
        Q.SleepersHaveReason(m);
      }
      q := Q.UnsettledCanStep(m);
    } else {
      q := Q.EnterPush(t, v);
    }
  }

  lemma BusyIsAwake(c: Config, w: Whole, l: Label)
    requires RawSeats(w) && DecSeats(w) && Enabled(c, w.s, l) && !UsesQueue(l) && !Disturbs(l)
    ensures Awake(w, l)
  {
    hide Q.WaitsToPush, Q.WaitsToPop, ItemOf, AllExited;
  }

  /** What a thread could do on ideal queues, it or a monitor can do here. */
  lemma LabelHasStep(c: Config, w: Whole, l: Label) returns (st: Step)
    requires Tied(c, w) && Enabled(c, w.s, l) && !Disturbs(l)
    ensures StepEnabled(c, w, st) && !Unruly(st) && !Spurious(st) && (st.Local? ==> st.l == l)
  {
    hide Sound, Q.Enabled, Q.WaitsToPush, Q.WaitsToPop, DecodeFrame;
    if !UsesQueue(l) {
      BusyIsAwake(c, w, l);
      st := Local(l);
    } else {
      match l {
        case Main(a) =>
          var q := ProducerHasStep(w.raw, 0, w.s.main.work);
          st := Raw(q);
        case Decoder(i, a) =>
          if a == PopRaw || a == SeeRawEnd {
            var q := ConsumerHasStep(w.raw, i + 1);
            st := Raw(q);
          } else {
            var q := ProducerHasStep(w.dec, i + 1, ItemOf(w.s.decoders[i].work));
            st := Dec(q, false);
          }
        case Writer(a) =>
          var q := ConsumerHasStep(w.dec, 0);
          st := Dec(q, false);
      }
    }
  }

  /**
   Deadlock freedom on the real queues: in every reachable state that is neither final nor
   listening, something can happen without a throw, a stop or a spurious wake-up.
   */
  lemma WholeNeverDeadlocks(c: Config, steps: seq<Step>, trace: seq<Whole>, n: nat) returns (st: Step)
    requires ValidOptions(c) && IsWholeRun(c, steps, trace) && n < |trace|
    requires !Finished(trace[n].s) && !Listening(c, trace[n].s)
    ensures StepEnabled(c, trace[n], st) && !Unruly(st) && !Spurious(st)
  {
    hide IsWholeRun, IsRun, Tied, Enabled, Disturbs, StepEnabled, Unruly, Spurious, Listening, Finished;
    var labels, states := Projection(c, steps, trace, n);
    ReachableTied(c, steps, trace, n);
    RunShape(c, labels, states);
    var l := NeverDeadlocks(c, labels, states, |labels|);
    st := LabelHasStep(c, trace[n], l);
  }

  // ---------------------------------------------------------------- The whole does not go on for ever

  /** How much waking and falling asleep is left to do among `n + 1` threads. */
  function Unrest<T>(m: Q.Monitor<T>, n: nat): int {
    6 * (n + 1) - 2 * (|m.sleepingConsumers| + |m.sleepingProducers|) - (|m.wokenConsumers| + |m.wokenProducers|)
    + 2 * (m.consumerNotes + m.producerNotes)
  }

  /** A broadcast due is worth more than all the threads it can wake. */
  function Due<T>(m: Q.Monitor<T>, n: nat): int { (n + 2) * Q.Broadcasts(m) + Unrest(m, n) }

  lemma MoreBroadcasts<T>(m: Q.Monitor<T>, a: Q.Monitor<T>, n: nat, d: int)
    requires Q.Broadcasts(a) == Q.Broadcasts(m) + d
    ensures Due(a, n) - Due(m, n) == (n + 2) * d + Unrest(a, n) - Unrest(m, n)
  {
    hide Q.Broadcasts, Unrest;
    assert (n + 2) * (Q.Broadcasts(m) + d) == (n + 2) * Q.Broadcasts(m) + (n + 2) * d;
  }

  /** What a step of the monitor can add to that: 3 for an answer, 1 for a spurious wake-up, else less than nothing. */
  function Cost<T>(m: Q.Monitor<T>, q: Q.Label<T>, n: nat): int {
    match q
    case Close => 2 * (n + 2)
    case SpuriousConsumer(_) => 1
    case SpuriousProducer(_) => 1
    case EnterPush(_, _) => if Q.CanPush(m.capacity, |m.queue|, m.closed) then 3 else -1
    case ResumePush(_) => if Q.CanPush(m.capacity, |m.queue|, m.closed) then 3 else -1
    case EnterPop(_) => if Q.CanPop(|m.queue|, m.closed) then 3 else -1
    case ResumePop(_) => if Q.CanPop(|m.queue|, m.closed) then 3 else -1
    case _ => -1
  }

  lemma PushCosts<T>(m: Q.Monitor<T>, t: nat, v: T, n: nat)
    requires t !in m.sleepingProducers
    ensures var a := Q.RunPush(m, t, v);
            && Q.Broadcasts(a) == Q.Broadcasts(m)
            && Unrest(a, n) <= Unrest(m, n) + (if Q.CanPush(m.capacity, |m.queue|, m.closed) then 2 else -2)
  {
    hide Q.CanPush;
    Q.WithMore(m.sleepingProducers, t);
  }

  lemma PopCosts<T>(m: Q.Monitor<T>, t: nat, n: nat)
    requires t !in m.sleepingConsumers
    ensures var a := Q.RunPop(m, t);
            && Q.Broadcasts(a) == Q.Broadcasts(m)
            && Unrest(a, n) <= Unrest(m, n) + (if Q.CanPop(|m.queue|, m.closed) then 2 else -2)
  {
    hide Q.CanPop;
    Q.WithMore(m.sleepingConsumers, t);
  }

  lemma SectionPays<T>(m: Q.Monitor<T>, q: Q.Label<T>, n: nat)
    requires Q.Placed(m) && Q.Enabled(m, q) && IsSection(q)
    ensures var a := Q.Apply(m, q);
            Q.Broadcasts(a) == Q.Broadcasts(m) && Unrest(a, n) <= Unrest(m, n) + Cost(m, q, n)
  {
    hide Q.RunPush, Q.RunPop, Q.CanPush, Q.CanPop;
    match q {
      case EnterPush(t, v) => PushCosts(m, t, v, n);
      case ResumePush(t) =>
        Q.WithOut(m.wokenProducers, t);
        PushCosts(m.(wokenProducers := m.wokenProducers - {t}), t, m.offers[t], n);
      case EnterPop(t) => PopCosts(m, t, n);
      case ResumePop(t) =>
        Q.WithOut(m.wokenConsumers, t);
        PopCosts(m.(wokenConsumers := m.wokenConsumers - {t}), t, n);
    }
  }

  lemma WakeUpPays<T>(m: Q.Monitor<T>, q: Q.Label<T>, n: nat)
    requires Q.Placed(m) && Q.Enabled(m, q) && !IsSection(q)
    requires !q.Close? && !q.BroadcastConsumers? && !q.BroadcastProducers?
    ensures var a := Q.Apply(m, q);
            Q.Broadcasts(a) == Q.Broadcasts(m) && Unrest(a, n) <= Unrest(m, n) + Cost(m, q, n)
  {
    match q {
      case NotifyConsumer(t) =>
        Q.WithOut(m.sleepingConsumers, t);
        Q.WithMore(m.wokenConsumers, t);
      case NotifyProducer(t) =>
        Q.WithOut(m.sleepingProducers, t);
        Q.WithMore(m.wokenProducers, t);
      case SpuriousConsumer(t) =>
        Q.WithOut(m.sleepingConsumers, t);
        Q.WithMore(m.wokenConsumers, t);
      case SpuriousProducer(t) =>
        Q.WithOut(m.sleepingProducers, t);
        Q.WithMore(m.wokenProducers, t);
      case _ =>
    }
  }

  lemma BroadcastPays<T>(m: Q.Monitor<T>, q: Q.Label<T>, n: nat)
    requires Q.Placed(m) && Q.Enabled(m, q) && (q.BroadcastConsumers? || q.BroadcastProducers?)
    requires |m.sleepingConsumers| <= n + 1 && |m.sleepingProducers| <= n + 1
    ensures var a := Q.Apply(m, q);
            Q.Broadcasts(a) == Q.Broadcasts(m) - 1 && Unrest(a, n) <= Unrest(m, n) + n + 1
  {
  }

  lemma MonitorPays<T>(m: Q.Monitor<T>, q: Q.Label<T>, n: nat)
    requires Q.Placed(m) && Q.Enabled(m, q)
    requires |m.sleepingConsumers| <= n + 1 && |m.sleepingProducers| <= n + 1
    ensures Due(Q.Apply(m, q), n) <= Due(m, n) + Cost(m, q, n)
  {
    hide Q.Placed, Q.Enabled, Q.Apply, Unrest, Due, Q.Broadcasts;
    var a := Q.Apply(m, q);
    if IsSection(q) {
      SectionPays(m, q, n);
      MoreBroadcasts(m, a, n, 0);
    } else if q.Close? {
      ClosePays(m, n);
      MoreBroadcasts(m, a, n, 2);
    } else if q.BroadcastConsumers? || q.BroadcastProducers? {
      BroadcastPays(m, q, n);
      MoreBroadcasts(m, a, n, -1);
    } else {
      WakeUpPays(m, q, n);
      MoreBroadcasts(m, a, n, 0);
    }
  }

  lemma ClosePays<T>(m: Q.Monitor<T>, n: nat)
    ensures Q.Enabled(m, Q.Close)
    ensures var a := Q.Apply(m, Q.Close);
            Q.Broadcasts(a) == Q.Broadcasts(m) + 2 && Unrest(a, n) == Unrest(m, n)
  {
  }

  lemma {:induction false} FewThreads(x: set<nat>, n: nat)
    requires forall t :: t in x ==> t <= n
    ensures |x| <= n + 1
    decreases n
  {
    if n in x {
      if n == 0 {
        assert x == {0};
      } else {
        Q.WithOut(x, n);
        FewThreads(x - {n}, n - 1);
      }
    } else if n == 0 {
      assert x == {};
    } else {
      FewThreads(x, n - 1);
    }
  }

  lemma FewWait<T>(m: Q.Monitor<T>, n: nat)
    requires Q.Placed(m) && forall t: nat :: Waits(m, t) ==> t <= n
    ensures Due(m, n) >= 0
    ensures |m.sleepingConsumers| <= n + 1 && |m.sleepingProducers| <= n + 1
  {
    var all := m.sleepingConsumers + m.wokenConsumers + m.sleepingProducers + m.wokenProducers;
    forall t | t in all
      ensures t <= n
    {
      assert Waits(m, t);
    }
    FewThreads(all, n);
    assert |all| == |m.sleepingConsumers| + |m.wokenConsumers| + |m.sleepingProducers| + |m.wokenProducers|;
    NaturalProduct(n + 2, Q.Broadcasts(m));
  }

  lemma NaturalProduct(x: nat, y: nat)
    ensures x * y >= 0
  {
  }

  lemma SeatsAreFew(c: Config, w: Whole)
    requires Tied(c, w) && |w.s.decoders| == c.decoders
    ensures Due(w.raw, c.decoders) >= 0 && Due(w.dec, c.decoders) >= 0
    ensures |w.raw.sleepingConsumers| <= c.decoders + 1 && |w.raw.sleepingProducers| <= c.decoders + 1
    ensures |w.dec.sleepingConsumers| <= c.decoders + 1 && |w.dec.sleepingProducers| <= c.decoders + 1
  {
    hide Due, Q.NoLostWakeUp, Q.Linear, ItemOf;
    FewWait(w.raw, c.decoders);
    FewWait(w.dec, c.decoders);
  }

  lemma UnansweredWaits(c: Config, w: Whole, st: Step)
    requires Tied(c, w) && StepEnabled(c, w, st) && Seen(w, st).None?
    ensures st.Raw? && (st.r.EnterPush? || st.r.ResumePush?) ==> !Q.CanPush(w.raw.capacity, |w.raw.queue|, w.raw.closed)
    ensures st.Raw? && (st.r.EnterPop? || st.r.ResumePop?) ==> !Q.CanPop(|w.raw.queue|, w.raw.closed)
    ensures st.Dec? && (st.d.EnterPush? || st.d.ResumePush?) ==> !Q.CanPush(w.dec.capacity, |w.dec.queue|, w.dec.closed)
    ensures st.Dec? && (st.d.EnterPop? || st.d.ResumePop?) ==> !Q.CanPop(|w.dec.queue|, w.dec.closed)
  {
    hide Sound, Q.CanPush, Q.CanPop, ItemOf;
    match st {
      case Raw(ResumePop(t)) => assert Q.WaitsToPop(w.raw, t);
      case Dec(ResumePush(t), _) => assert Q.WaitsToPush(w.dec, t);
      case _ =>
    }
  }

  /** What threads and monitors have left to do: a step of a thread pays for all it sets going. */
  function Potential(c: Config, w: Whole): int
    requires w.s.next <= |c.input|
  {
    (2 * c.decoders + 5) * Budget(c, w.s) + Due(w.raw, c.decoders) + Due(w.dec, c.decoders)
  }

  lemma ThreadPays(k: nat, x: nat, y: nat)
    requires x < y
    ensures k * x + k <= k * y
  {
    NaturalProduct(k, y - x - 1);
    assert k * y == k * (x + 1 + (y - x - 1)) == k * x + k + k * (y - x - 1);
  }

  lemma LocalCosts(c: Config, w: Whole, l: Label)
    requires Tied(c, w) && |w.s.decoders| == c.decoders && StepEnabled(c, w, Local(l))
    ensures var n := StepApply(c, w, Local(l));
            Due(n.raw, c.decoders) + Due(n.dec, c.decoders)
            <= Due(w.raw, c.decoders) + Due(w.dec, c.decoders) + 2 * (c.decoders + 2)
  {
    hide Due, Enabled, Apply, Q.Apply, Q.NoLostWakeUp, Q.Linear, SameQueues, RawSeats, DecSeats, UsesQueue;
    ClosePays(w.raw, c.decoders);
    ClosePays(w.dec, c.decoders);
    SeatsAreFew(c, w);
    MonitorPays(w.raw, Q.Close, c.decoders);
    MonitorPays(w.dec, Q.Close, c.decoders);
    assert !(ClosesRaw(w.s, l) && ClosesQueue(w.s, l));
  }

  function Price(w: Whole, st: Step): int {
    if Seen(w, st).Some? then 3 else if Spurious(st) then 1 else -1
  }

  lemma CostOfUnanswered(c: Config, w: Whole, st: Step)
    requires Tied(c, w) && StepEnabled(c, w, st)
    ensures st.Raw? ==> Cost(w.raw, st.r, c.decoders) <= Price(w, st)
    ensures st.Dec? ==> Cost(w.dec, st.d, c.decoders) <= Price(w, st)
  {
    hide Sound, ItemOf, RawAnswer, DecAnswer, Q.CanPush, Q.CanPop;
    if Seen(w, st).None? {
      UnansweredWaits(c, w, st);
    }
  }

  /** Every step but a spurious wake-up uses up some of it, and a spurious wake-up adds one. */
  lemma StepPays(c: Config, w: Whole, st: Step)
    requires Tied(c, w) && |w.s.decoders| == c.decoders && w.s.next <= |c.input| && StepEnabled(c, w, st)
    ensures var n := StepApply(c, w, st);
            && n.s.next <= |c.input|
            && Potential(c, n) <= Potential(c, w) + (if Spurious(st) then 1 else -1)
  {
    hide Tied, Enabled, Apply, Budget, Due, Cost, Q.Apply, Q.Enabled, RawAnswer, DecAnswer, RawTurn, DecTurn, Take,
         UsesQueue, ClosesRaw, ClosesQueue;
    StepIsSeen(c, w, st);
    SeatsAreFew(c, w);
    TiedIsPlaced(c, w);
    var n := StepApply(c, w, st);
    if Seen(w, st).Some? {
      StepUsesBudget(c, w.s, Seen(w, st).value);
      ThreadPays(2 * c.decoders + 5, Budget(c, n.s), Budget(c, w.s));
    }
    CostOfUnanswered(c, w, st);
    match st {
      case Local(l) => LocalCosts(c, w, l);
      case Raw(q) => MonitorPays(w.raw, q, c.decoders);
      case Dec(q, _) => MonitorPays(w.dec, q, c.decoders);
    }
  }

  lemma TiedIsPlaced(c: Config, w: Whole)
    requires Tied(c, w)
    ensures Q.Placed(w.raw) && Q.Placed(w.dec)
  {
  }

  // ---------------------------------------------------------------- Every run ends

  lemma WholeIsInv(c: Config, steps: seq<Step>, trace: seq<Whole>, n: nat)
    requires IsWholeRun(c, steps, trace) && n < |trace|
    ensures Tied(c, trace[n]) && Inv(c, trace[n].s)
    ensures trace[n].s.next <= |c.input| && |trace[n].s.decoders| == c.decoders
  {
    hide IsWholeRun, IsRun, Tied, Inv;
    var labels, states := Projection(c, steps, trace, n);
    RunShape(c, labels, states);
    ReachableTied(c, steps, trace, n);
    ReachableInv(c, labels, states, |labels|);
    RunUsesBudget(c, labels, states, |labels|);
    InvHasAllDecoders(c, trace[n].s);
  }

  function SpuriousIn(steps: seq<Step>): nat {
    if steps == [] then 0
    else SpuriousIn(steps[..|steps| - 1]) + (if Spurious(steps[|steps| - 1]) then 1 else 0)
  }

  /** What there is to do at the start, with `n` decoders and `frames` frames of input. */
  function Allowance(n: nat, frames: nat): nat {
    (2 * n + 5) * (10 * frames + 5 * n + 27) + 12 * (n + 1)
  }

  lemma StartPotential(c: Config)
    ensures Potential(c, Start(c)) == Allowance(c.decoders, |c.input|)
  {
    InitialBudget(c.decoders);
    assert Q.Broadcasts(Start(c).raw) == 0 && Q.Broadcasts(Start(c).dec) == 0;
  }

  lemma {:induction false} RunPays(c: Config, steps: seq<Step>, trace: seq<Whole>, n: nat)
    requires IsWholeRun(c, steps, trace) && n < |trace|
    ensures trace[n].s.next <= |c.input|
    ensures Potential(c, trace[n]) + n <= Allowance(c.decoders, |c.input|) + 2 * SpuriousIn(steps[..n])
  {
    hide Tied, StepApply, StepEnabled, Potential, Allowance, Inv;
    if n == 0 {
      StartPotential(c);
    } else {
      RunPays(c, steps, trace, n - 1);
      WholeIsInv(c, steps, trace, n - 1);
      assert StepEnabled(c, trace[n - 1], steps[n - 1])
          && trace[n - 1 + 1] == StepApply(c, trace[n - 1], steps[n - 1]);
      StepPays(c, trace[n - 1], steps[n - 1]);
      assert steps[..n][..n - 1] == steps[..n - 1];
    }
  }

  lemma PotentialIsNatural(c: Config, w: Whole)
    requires Tied(c, w) && |w.s.decoders| == c.decoders && w.s.next <= |c.input|
    ensures Potential(c, w) >= 0
  {
    hide Tied, Due, Budget;
    SeatsAreFew(c, w);
    NaturalProduct(2 * c.decoders + 5, Budget(c, w.s));
  }

  /** Every run of threads and monitors is short but for two steps a spurious wake-up. */
  lemma EveryWholeRunEnds(c: Config, steps: seq<Step>, trace: seq<Whole>)
    requires IsWholeRun(c, steps, trace)
    ensures |steps| <= Allowance(c.decoders, |c.input|) + 2 * SpuriousIn(steps)
  {
    hide Tied, StepApply, StepEnabled, Potential, Allowance, Inv;
    RunPays(c, steps, trace, |steps|);
    WholeIsInv(c, steps, trace, |steps|);
    PotentialIsNatural(c, trace[|steps|]);
    assert steps[..|steps|] == steps;
  }

  // ---------------------------------------------------------------- The whole finishes

  /**
   A step without a throw or a spurious wake-up; a stop is requested at most of a listening station,
   and input ends once it is stopped.
   */
  ghost predicate Orderly(c: Config, w: Whole, st: Step, n: Whole) {
    && StepEnabled(c, w, st) && n == StepApply(c, w, st) && !Spurious(st)
    && (Unruly(st) ==> st == Local(StopRequested) && Listening(c, w.s))
    && (st == Local(Main(Submit)) ==> w.s.running)
  }

  lemma OneOrderlyStep(c: Config, w: Whole) returns (st: Step, n: Whole)
    requires ValidOptions(c) && Tied(c, w) && Inv(c, w.s) && w.s.next <= |c.input| && !Finished(w.s)
    ensures Orderly(c, w, st, n) && Tied(c, n) && Inv(c, n.s) && n.s.next <= |c.input|
    ensures Potential(c, n) < Potential(c, w)
  {
    hide Tied, Inv, Enabled, Apply, StepEnabled, StepApply, Finished, Potential, Seen;
    if Listening(c, w.s) {
      st := Local(StopRequested);
      StopCanBeRequested(c, w);
    } else {
      var l := SomeStepIsEnabled(c, w.s);
      st := LabelHasStep(c, w, l);
    }
    n := StepApply(c, w, st);
    StepKeepsTied(c, w, st);
    InvHasAllDecoders(c, w.s);
    StepPays(c, w, st);
    StepIsSeen(c, w, st);
    if Seen(w, st).Some? {
      StepKeepsInv(c, w.s, Seen(w, st).value);
    }
  }

  lemma StopCanBeRequested(c: Config, w: Whole)
    requires Listening(c, w.s)
    ensures StepEnabled(c, w, Local(StopRequested))
  {
  }

  lemma {:induction false} WholeFinishFrom(c: Config, w: Whole) returns (steps: seq<Step>, trace: seq<Whole>)
    requires ValidOptions(c) && Tied(c, w) && Inv(c, w.s) && w.s.next <= |c.input|
    ensures |trace| == |steps| + 1 && trace[0] == w && Finished(trace[|steps|].s)
    ensures forall i :: 0 <= i < |steps| ==> Orderly(c, trace[i], steps[i], trace[i + 1])
    decreases Potential(c, w)
  {
    hide Tied, Inv, Orderly, Potential;
    if Finished(w.s) {
      steps, trace := [], [w];
    } else {
      InvHasAllDecoders(c, w.s);
      PotentialIsNatural(c, w);
      var st, n := OneOrderlyStep(c, w);
      var later, rest := WholeFinishFrom(c, n);
      steps, trace := [st] + later, [w] + rest;
      forall i | 0 <= i < |steps|
        ensures Orderly(c, trace[i], steps[i], trace[i + 1])
      {
        if i > 0 {
          assert trace[i] == rest[i - 1] && steps[i] == later[i - 1] && trace[i + 1] == rest[i - 1 + 1];
        }
      }
    }
  }

  lemma InvHasAllDecoders(c: Config, s: State)
    requires Inv(c, s)
    ensures |s.decoders| == c.decoders
  {
  }

  /** From every reachable state of the whole, an orderly schedule leads to the end. */
  lemma WholeCanAlwaysFinish(c: Config, steps: seq<Step>, trace: seq<Whole>, n: nat)
    returns (steps': seq<Step>, trace': seq<Whole>)
    requires ValidOptions(c) && IsWholeRun(c, steps, trace) && n < |trace|
    ensures |trace'| == |steps'| + 1 && trace'[0] == trace[n] && Finished(trace'[|steps'|].s)
    ensures forall i :: 0 <= i < |steps'| ==> Orderly(c, trace'[i], steps'[i], trace'[i + 1])
  {
    hide IsWholeRun, IsRun, Tied, Inv, Orderly, Finished;
    var labels, states := Projection(c, steps, trace, n);
    ReachableTied(c, steps, trace, n);
    RunShape(c, labels, states);
    ReachableInv(c, labels, states, |labels|);
    RunUsesBudget(c, labels, states, |labels|);
    steps', trace' := WholeFinishFrom(c, trace[n]);
  }

  /** The schedule was followed until nothing could happen by itself. */
  ghost predicate WholeFollowed(c: Config, steps: seq<Step>, trace: seq<Whole>)
    requires IsWholeRun(c, steps, trace)
  {
    && (forall i :: 0 <= i < |steps| ==> !Unruly(steps[i]))
    && (forall st :: !Unruly(st) && !Spurious(st) ==> !StepEnabled(c, trace[|steps|], st))
  }

  /**
   On the real queues, too: without a throw or a stop, every schedule ends with the counters, the
   health state, the transitions and the export of the whole input.
   */
  lemma WholeRunsAgree(c: Config, steps: seq<Step>, trace: seq<Whole>)
    requires ValidOptions(c) && IsWholeRun(c, steps, trace) && WholeFollowed(c, steps, trace)
    ensures var s := trace[|steps|].s;
            && s.main == (if c.replay then Returned else Receiving) && s.received == |c.input|
            && s.books.expected == |c.input| && s.books.pending == map[]
            && Reflects(c.health, s.books, Results(c))
  {
    hide IsRun, Tied, Enabled, Disturbs, StepEnabled, StepApply, Unruly, Spurious, Reflects, Results;
    var labels, states := Projection(c, steps, trace, |steps|);
    ReachableTied(c, steps, trace, |steps|);
    RunShape(c, labels, states);
    forall l | !Disturbs(l)
      ensures !Enabled(c, states[|labels|], l)
    {
      if Enabled(c, states[|labels|], l) {
        var st := LabelHasStep(c, trace[|steps|], l);
        assert false;
      }
    }
    UndisturbedRunsAgree(c, labels, states);
  }
}
