/**
 The concurrent pipeline (apps/ground_station/GroundStationPipeline.cpp, GroundStationWorkers.cpp):
 one producer, any number of decoders, one ordering writer, two bounded queues.

 A state is the program counter of every thread plus what they share; a step is one thread going
 from one synchronisation point to the next.  A blocked push or pop is a step that is not enabled;
 module PipelineMonitors puts the condition variables back in and shows that nothing is lost by it.
 */
module Pipeline {
  import opened Bytes
  import opened FrameCodec
  import opened StationHealth
  import opened OrderedWriter
  import BlockingQueue

  /** `input` holds every frame the network or the replay file will deliver; only a replay ends by itself. */
  datatype Config = Config(
    decoders: nat, capacity: nat, health: HealthConfig, replay: bool, input: seq<seq<byte>>)

  /** What the option parser demands; a capacity of 0 would mean an unbounded queue. */
  predicate ValidOptions(c: Config) { c.decoders >= 1 }

  datatype Work = Work(sequence: nat, bytes: seq<byte>)

  datatype Failure = InputFailed | DecoderFailed | OutputFailed | Duplicate | Gap

  /** Where a thread is inside failPipeline. */
  datatype Stage = Capturing | Stopping | ClosingRaw | ClosingDecoded

  datatype MainPc =
    | Receiving | Pushing(work: Work) | Counting | MainFailing(stage: Stage)
    | StoppingRaw | JoiningDecoders | StoppingDecoded | JoiningWriter | Rethrowing
    | Returned | Rethrown

  datatype DecoderPc = Popping | Holding(work: Work) | DecoderFailing(stage: Stage) | DecoderExited

  datatype WriterPc = Awaiting | Draining | Finishing | WriterFailing(stage: Stage, failure: Failure) | WriterExited

  /** `pushed`, `lost` and `stopRequested` record what happened; no thread reads them. */
  datatype State = State(
    main: MainPc, next: nat, pushed: nat, received: nat, running: bool, stopRequested: bool,
    raw: seq<Work>, rawClosed: bool,
    decoders: seq<DecoderPc>,
    queue: seq<Item>, queueClosed: bool,
    writer: WriterPc, books: Books,
    error: Option<Failure>, lost: multiset<nat>)

  datatype MainAct =
    | Submit | PushRaw | PushRefused | CountReceived | EndInput | InputThrows | MainFails
    | CloseRaw | JoinDecoders | CloseQueue | JoinWriter | Rethrow

  datatype DecoderAct = PopRaw | SeeRawEnd | PushItem | ItemRefused | DecoderThrows | DecoderFails

  /** How far the writer got with a result when something threw. */
  datatype Progress = JustCounted | AlsoObserved | AlsoExported

  datatype WriterAct =
    | PopItem | Treat | TreatThrows(progress: Progress) | CaughtUp | SeeQueueEnd | ParkThrows
    | Finish | FinishThrows | WriterFails

  datatype Label = Main(m: MainAct) | Decoder(i: nat, d: DecoderAct) | Writer(w: WriterAct) | StopRequested

  function Initial(c: Config): State {
    State(Receiving, 0, 0, 0, true, false, [], false, seq(c.decoders, i => Popping), [], false, Awaiting, START,
          None, multiset{})
  }

  predicate HasRoom(c: Config, size: nat) { c.capacity == 0 || size < c.capacity }

  // ---------------------------------------------------------------- failPipeline

  function Capture(error: Option<Failure>, f: Failure): Option<Failure> {
    if error.None? then Some(f) else error
  }

  /** One statement of failPipeline. */
  function FailStep(s: State, stage: Stage, f: Failure): State {
    match stage
    case Capturing => s.(error := Capture(s.error, f))
    case Stopping => s.(running := false)
    case ClosingRaw => s.(rawClosed := true)
    case ClosingDecoded => s.(queueClosed := true)
  }

  function NextStage(stage: Stage): Stage {
    match stage
    case Capturing => Stopping
    case Stopping => ClosingRaw
    case ClosingRaw => ClosingDecoded
    case ClosingDecoded => ClosingDecoded
  }

  // ---------------------------------------------------------------- The main thread

  predicate AllExited(decoders: seq<DecoderPc>) {
    forall i :: 0 <= i < |decoders| ==> decoders[i] == DecoderExited
  }

  predicate MainEnabled(c: Config, s: State, a: MainAct) {
    match a
    case Submit => s.main == Receiving && s.next < |c.input|
    case PushRaw => s.main.Pushing? && !s.rawClosed && HasRoom(c, |s.raw|)
    case PushRefused => s.main.Pushing? && s.rawClosed
    case CountReceived => s.main == Counting
    case EndInput => s.main == Receiving && (!s.running || (c.replay && s.next == |c.input|))
    case InputThrows => s.main == Receiving || s.main.Pushing?
    case MainFails => s.main.MainFailing?
    case CloseRaw => s.main == StoppingRaw
    case JoinDecoders => s.main == JoiningDecoders && AllExited(s.decoders)
    case CloseQueue => s.main == StoppingDecoded
    case JoinWriter => s.main == JoiningWriter && s.writer == WriterExited
    case Rethrow => s.main == Rethrowing
  }

  function MainApply(c: Config, s: State, a: MainAct): State
    requires MainEnabled(c, s, a)
  {
    match a
    case Submit => s.(main := Pushing(Work(s.next, c.input[s.next])), next := s.next + 1)
    case PushRaw => s.(main := Counting, raw := s.raw + [s.main.work], pushed := s.pushed + 1)
    case PushRefused => s.(main := Receiving, running := false)
    case CountReceived => s.(main := Receiving, received := s.received + 1)
    case EndInput => s.(main := StoppingRaw, running := s.running && !c.replay)
    case InputThrows => s.(main := MainFailing(Capturing))
    case MainFails =>
      FailStep(s, s.main.stage, InputFailed).(
        main := if s.main.stage == ClosingDecoded then StoppingRaw else MainFailing(NextStage(s.main.stage)))
    case CloseRaw => s.(main := JoiningDecoders, rawClosed := true)
    case JoinDecoders => s.(main := StoppingDecoded)
    case CloseQueue => s.(main := JoiningWriter, queueClosed := true)
    case JoinWriter => s.(main := Rethrowing)
    case Rethrow => s.(main := if s.error.Some? then Rethrown else Returned)
  }

  /** The push of `submit` and what follows it, as far as it goes without waiting. */
  function OfferSteps(c: Config, s: State): State
    requires s.main.Pushing?
  {
    if s.rawClosed then MainApply(c, s, PushRefused)
    else if HasRoom(c, |s.raw|) then MainApply(c, MainApply(c, s, PushRaw), CountReceived)
    else s
  }

  /** A call of `submit`, as far as it goes without waiting. */
  function SubmitSteps(c: Config, s: State): State
    requires MainEnabled(c, s, Submit)
  {
    OfferSteps(c, MainApply(c, s, Submit))
  }

  // ---------------------------------------------------------------- A decoder

  predicate DecoderEnabled(c: Config, s: State, i: nat, a: DecoderAct) {
    && i < |s.decoders|
    && match a
       case PopRaw => s.decoders[i] == Popping && s.raw != []
       case SeeRawEnd => s.decoders[i] == Popping && s.raw == [] && s.rawClosed
       case PushItem => s.decoders[i].Holding? && !s.queueClosed && HasRoom(c, |s.queue|)
       case ItemRefused => s.decoders[i].Holding? && s.queueClosed
       case DecoderThrows => s.decoders[i] == Popping || s.decoders[i].Holding?
       case DecoderFails => s.decoders[i].DecoderFailing?
  }

  function DecoderApply(c: Config, s: State, i: nat, a: DecoderAct): State
    requires DecoderEnabled(c, s, i, a)
  {
    var pc := s.decoders[i];
    match a
    case PopRaw => s.(raw := s.raw[1..], decoders := s.decoders[i := Holding(s.raw[0])])
    case SeeRawEnd => s.(decoders := s.decoders[i := DecoderExited])
    case PushItem =>
      s.(queue := s.queue + [Item(pc.work.sequence, DecodeFrame(pc.work.bytes))],
         decoders := s.decoders[i := Popping])
    case ItemRefused => s.(lost := s.lost + Held(pc), decoders := s.decoders[i := DecoderExited])
    case DecoderThrows => s.(lost := s.lost + Held(pc), decoders := s.decoders[i := DecoderFailing(Capturing)])
    case DecoderFails =>
      FailStep(s, pc.stage, DecoderFailed).(
        decoders := s.decoders[i := if pc.stage == ClosingDecoded then DecoderExited else DecoderFailing(NextStage(pc.stage))])
  }

  /** The number a decoder has in hand. */
  function Held(pc: DecoderPc): multiset<nat> {
    if pc.Holding? then multiset{pc.work.sequence} else multiset{}
  }

  // ---------------------------------------------------------------- The writer

  predicate WriterEnabled(s: State, a: WriterAct) {
    match a
    case PopItem => s.writer == Awaiting && s.queue != []
    case ParkThrows => s.writer == Awaiting && s.queue != []
    case SeeQueueEnd => s.writer == Awaiting && s.queue == [] && s.queueClosed
    case Treat => s.writer == Draining && s.books.expected in s.books.pending
    case TreatThrows(_) => s.writer == Draining && s.books.expected in s.books.pending
    case CaughtUp => s.writer == Draining && s.books.expected !in s.books.pending
    case Finish => s.writer == Finishing
    case FinishThrows => s.writer == Finishing
    case WriterFails => s.writer.WriterFailing?
  }

  /** What is left of the treatment of `r` when it throws. */
  function Interrupted(c: HealthConfig, b: Books, r: ParseResult, p: Progress): Books {
    match p
    case JustCounted => Count(b, r)
    case AlsoObserved => Observe(c, Count(b, r), r)
    case AlsoExported => Export(Observe(c, Count(b, r), r), r)
  }

  function WriterApply(c: Config, s: State, a: WriterAct): State
    requires WriterEnabled(s, a)
  {
    match a
    case PopItem =>
      var item := s.queue[0];
      if item.sequence in s.books.pending then
        s.(queue := s.queue[1..], lost := s.lost + multiset{item.sequence}, writer := WriterFailing(Capturing, Duplicate))
      else s.(queue := s.queue[1..], books := Park(s.books, item), writer := Draining)
    case ParkThrows =>
      s.(queue := s.queue[1..], lost := s.lost + multiset{s.queue[0].sequence}, writer := WriterFailing(Capturing, OutputFailed))
    case SeeQueueEnd => s.(writer := if s.books.pending == map[] then Finishing else WriterFailing(Capturing, Gap))
    case Treat => s.(books := Process(c.health, s.books))
    case TreatThrows(p) =>
      s.(books := Interrupted(c.health, s.books, s.books.pending[s.books.expected], p),
         writer := WriterFailing(Capturing, OutputFailed))
    case CaughtUp => s.(writer := Awaiting)
    case Finish => s.(writer := WriterExited)
    case FinishThrows => s.(writer := WriterFailing(Capturing, OutputFailed))
    case WriterFails =>
      FailStep(s, s.writer.stage, s.writer.failure).(
        writer := if s.writer.stage == ClosingDecoded then WriterExited
                  else WriterFailing(NextStage(s.writer.stage), s.writer.failure))
  }

  // ---------------------------------------------------------------- Runs

  predicate Enabled(c: Config, s: State, l: Label) {
    match l
    case Main(a) => MainEnabled(c, s, a)
    case Decoder(i, a) => DecoderEnabled(c, s, i, a)
    case Writer(a) => WriterEnabled(s, a)
    case StopRequested => s.running
  }

  function Apply(c: Config, s: State, l: Label): State
    requires Enabled(c, s, l)
  {
    match l
    case Main(a) => MainApply(c, s, a)
    case Decoder(i, a) => DecoderApply(c, s, i, a)
    case Writer(a) => WriterApply(c, s, a)
    case StopRequested => s.(running := false, stopRequested := true)
  }

  /** A schedule and the states it goes through. */
  ghost predicate IsRun(c: Config, labels: seq<Label>, trace: seq<State>) {
    && |trace| == |labels| + 1
    && trace[0] == Initial(c)
    && forall i :: 0 <= i < |labels| ==> Enabled(c, trace[i], labels[i]) && trace[i + 1] == Apply(c, trace[i], labels[i])
  }

  // ---------------------------------------------------------------- The pipeline object, one call at a time

  /** The first error wins. */
  class AsyncFailure {
    var error: Option<Failure>

    constructor ()
      ensures error == None
    {
      error := None;
    }

    method CaptureError(f: Failure)
      modifies this
      ensures error == if old(error) == None then Some(f) else old(error)
    {
      if error == None {
        error := Some(f);
      }
    }

    /** What would be rethrown, if anything. */
    method RethrowIfPresent() returns (r: Option<Failure>)
      ensures r == error
    {
      if error != None {
        return error;
      }
      return None;
    }
  }

  class GroundStationPipeline {
    const asyncFailure: AsyncFailure
    const rawQueue: BlockingQueue.BlockingQueue<Work>
    const decodedQueue: BlockingQueue.BlockingQueue<Item>
    var running: bool
    var nextSequence: nat
    var received: nat

    constructor (capacity: nat)
      ensures fresh(asyncFailure) && fresh(rawQueue) && fresh(decodedQueue) && Valid()
      ensures rawQueue.capacity == capacity && decodedQueue.capacity == capacity
      ensures forall s: State :: View(s) == s.(error := None, running := true, raw := [], rawClosed := false,
                                               queue := [], queueClosed := false, next := 0, received := 0)
    {
      asyncFailure := new AsyncFailure();
      rawQueue := new BlockingQueue.BlockingQueue<Work>(capacity);
      decodedQueue := new BlockingQueue.BlockingQueue<Item>(capacity);
      running, nextSequence, received := true, 0, 0;
    }

    ghost predicate Valid()
      reads this, rawQueue, decodedQueue
    {
      rawQueue.Bounded() && decodedQueue.Bounded()
    }

    /** The state of the protocol as this object holds it; threads' positions come from `s`. */
    ghost function View(s: State): State
      reads this, asyncFailure, rawQueue, decodedQueue
    {
      s.(error := asyncFailure.error, running := running, raw := rawQueue.queue, rawClosed := rawQueue.closed,
         queue := decodedQueue.queue, queueClosed := decodedQueue.closed, next := nextSequence, received := received)
    }

    /** failPipeline with nothing else going on: its four statements in order. */
    method FailPipeline(f: Failure)
      requires Valid()
      modifies this`running, asyncFailure, rawQueue`closed, decodedQueue`closed
      ensures Valid()
      ensures forall s: State ::
                View(s) == FailStep(FailStep(FailStep(FailStep(old(View(s)),
                                                               Capturing, f), Stopping, f), ClosingRaw, f), ClosingDecoded, f)
    {
      asyncFailure.CaptureError(f);
      running := false;
      rawQueue.Close();
      decodedQueue.Close();
    }

    /** The fields of this object are those of `s`. */
    ghost predicate Holds(s: State)
      reads this, asyncFailure, rawQueue, decodedQueue
    {
      View(s) == s
    }

    /** The push of `submit`, called again after each wake-up while it answers `PushWaits`. */
    method Offer(work: Work) returns (r: BlockingQueue.PushResult)
      requires Valid()
      modifies this`running, this`received, rawQueue`queue
      ensures Valid()
      ensures r == BlockingQueue.PushWaits <==>
                !BlockingQueue.CanPush(rawQueue.capacity, |old(rawQueue.queue)|, rawQueue.closed)
      ensures forall c: Config, s: State :: c.capacity == rawQueue.capacity && s.main == Pushing(work) ==>
                Holds(OfferSteps(c, old(View(s))))
    {
      r := rawQueue.PushSection(work);
      match r {
        case PushWaits =>
        case PushRefused => running := false;
        case PushDone => received := received + 1;
      }
    }

    /** `submit` up to its first wait, if it has to wait at all. */
    method SubmitFrame(frameBytes: seq<byte>) returns (r: BlockingQueue.PushResult, work: Work)
      requires Valid()
      modifies this`nextSequence, this`running, this`received, rawQueue`queue
      ensures Valid()
      ensures work == Work(old(nextSequence), frameBytes)
      ensures r == BlockingQueue.PushWaits <==>
                !BlockingQueue.CanPush(rawQueue.capacity, |old(rawQueue.queue)|, rawQueue.closed)
      ensures forall c: Config, s: State ::
                c.capacity == rawQueue.capacity && s.main == Receiving
                && old(nextSequence) < |c.input| && c.input[old(nextSequence)] == frameBytes ==>
                  Holds(SubmitSteps(c, old(View(s))))
    {
      work := Work(nextSequence, frameBytes);
      nextSequence := nextSequence + 1;
      label numbered:
      r := Offer(work);
      forall c: Config, s: State | c.capacity == rawQueue.capacity && s.main == Receiving
                                   && old(nextSequence) < |c.input| && c.input[old(nextSequence)] == frameBytes
        ensures Holds(SubmitSteps(c, old(View(s))))
      {
        var t := s.(main := Pushing(work));
        assert old@numbered(View(t)) == MainApply(c, old(View(s)), Submit);
      }
    }
  }
}
