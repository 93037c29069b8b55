/**
 What every step of every thread of the pipeline keeps.
 */
module PipelineInvariant {
  import opened Bytes
  import opened FrameCodec
  import opened StationHealth
  import opened OrderedWriter
  import opened Pipeline

  // ---------------------------------------------------------------- The invariant

  /** What a sequential station would make of the input. */
  function Results(c: Config): (rs: seq<ParseResult>)
    ensures |rs| == |c.input|
  {
    seq(|c.input|, i requires 0 <= i < |c.input| => DecodeFrame(c.input[i]))
  }

  predicate Genuine(c: Config, w: Work) {
    w.sequence < |c.input| && w.bytes == c.input[w.sequence]
  }

  /** Nothing on its way has been altered. */
  ghost predicate Contents(c: Config, s: State) {
    && |s.decoders| == c.decoders
    && s.pushed <= s.next <= |c.input|
    && (s.main.Pushing? ==> Genuine(c, s.main.work))
    && (forall j :: 0 <= j < |s.raw| ==> Genuine(c, s.raw[j]))
    && (forall i :: 0 <= i < |s.decoders| ==> s.decoders[i].Holding? ==> Genuine(c, s.decoders[i].work))
    && AllAgree(s.queue, Results(c))
    && Agrees(s.books, Results(c))
  }

  /** The producer's counters and the raw queue. */
  ghost predicate Numbering(s: State) {
    && |s.raw| <= s.pushed
    && (forall j :: 0 <= j < |s.raw| ==> s.raw[j].sequence == s.pushed - |s.raw| + j)
    && (s.main == Receiving || s.main == Counting ==> s.rawClosed || s.next == s.pushed)
    && (s.main.Pushing? ==> s.rawClosed || (s.next == s.pushed + 1 && s.main.work.sequence == s.pushed))
    && s.pushed == s.received + (if s.main == Counting then 1 else 0)
  }

  ghost function InHand(ds: seq<DecoderPc>): multiset<nat> {
    if ds == [] then multiset{} else Held(ds[0]) + InHand(ds[1..])
  }

  /** How many numbers have left the raw queue. */
  function Taken(s: State): int { s.pushed - |s.raw| }

  /** Where the numbers that left the raw queue are. */
  ghost function Beyond(s: State): multiset<nat> {
    InHand(s.decoders) + Sequences(s.queue) + Arrived(s.books) + s.lost
  }

  /** Each number taken from the raw queue is in exactly one place. */
  ghost predicate Conserved(s: State) {
    Taken(s) >= 0 && Beyond(s) == UpTo(Taken(s))
  }

  predicate WriterFailed(s: State) {
    s.writer.WriterFailing? || (s.writer == WriterExited && s.error.Some?)
  }

  /** The next result was being treated when something threw. */
  ghost predicate Torn(c: HealthConfig, b: Books, less: seq<ParseResult>, more: seq<ParseResult>) {
    && Counted(b, more)
    && (Observed(c, b, less) || Observed(c, b, more))
    && (Exported(b, less) || Exported(b, more))
  }

  ghost predicate Faithful(c: Config, s: State) {
    var rs, e := Results(c), s.books.expected;
    && e <= |rs|
    && (|| Reflects(c.health, s.books, rs[..e])
        || (WriterFailed(s) && e < |rs| && e < s.pushed && Torn(c.health, s.books, rs[..e], rs[..e + 1])))
    && (s.writer == Awaiting || s.writer == Finishing ==> e !in s.books.pending)
  }

  /** A failed thread has stored its error before anything else. */
  ghost predicate Captured(s: State) {
    && (s.main.MainFailing? && s.main.stage != Capturing ==> s.error.Some?)
    && (forall i :: 0 <= i < |s.decoders| ==>
                      s.decoders[i].DecoderFailing? && s.decoders[i].stage != Capturing ==> s.error.Some?)
    && (s.writer.WriterFailing? && s.writer.stage != Capturing ==> s.error.Some?)
    && (s.main.MainFailing? && s.main.stage == ClosingDecoded ==> s.rawClosed)
    && (forall i :: 0 <= i < |s.decoders| ==>
                      s.decoders[i].DecoderFailing? && s.decoders[i].stage == ClosingDecoded ==> s.rawClosed)
    && (s.writer.WriterFailing? && s.writer.stage == ClosingDecoded ==> s.rawClosed)
  }

  predicate StillReceiving(m: MainPc) { m.Receiving? || m.Pushing? || m.Counting? || m.MainFailing? }

  predicate DecodersJoined(m: MainPc) {
    m.StoppingDecoded? || m.JoiningWriter? || m.Rethrowing? || m.Returned? || m.Rethrown?
  }

  predicate WriterJoined(m: MainPc) { m.Rethrowing? || m.Returned? || m.Rethrown? }

  /** The queues close in order, and no thread leaves early, unless there is an error to report. */
  ghost predicate Ordered(s: State) {
    && (s.queueClosed ==> s.rawClosed)
    && (s.rawClosed ==> s.error.Some? || !StillReceiving(s.main))
    && (s.queueClosed ==> s.error.Some? || DecodersJoined(s.main))
    && (!StillReceiving(s.main) && s.main != StoppingRaw ==> s.rawClosed)
    && (DecodersJoined(s.main) ==> AllExited(s.decoders))
    && (DecodersJoined(s.main) && s.main != StoppingDecoded ==> s.queueClosed)
    && (WriterJoined(s.main) ==> s.writer == WriterExited)
    && (forall i :: 0 <= i < |s.decoders| ==> s.decoders[i] == DecoderExited ==>
                                                s.rawClosed && (s.error.Some? || s.raw == []))
    && (s.writer == Finishing || s.writer == WriterExited ==>
          s.queueClosed && (s.error.Some? || (s.queue == [] && s.books.pending == map[])))
    && (s.main == Returned ==> s.error == None)
    && (s.main == Rethrown ==> s.error.Some?)
  }

  /** Numbers are only lost by a thread that is about to report an error, or after one is stored. */
  ghost predicate Excused(s: State) {
    || s.lost == multiset{}
    || s.error.Some?
    || (exists i :: 0 <= i < |s.decoders| && s.decoders[i] == DecoderFailing(Capturing))
    || s.writer.WriterFailing?
  }

  /** The invariant violations the writer looks for are never the first error. */
  ghost predicate NoFalseAlarm(s: State) {
    && s.error != Some(Gap) && s.error != Some(Duplicate)
    && (s.writer.WriterFailing? ==> s.writer.failure != Duplicate)
    && (s.writer.WriterFailing? && s.writer.failure == Gap ==> s.error.Some?)
  }

  /** Input ends early only because a stop was asked for or something failed; submitted means pushed. */
  ghost predicate InputUsedUp(c: Config, s: State) {
    && (StillReceiving(s.main) && !s.running ==> s.stopRequested || s.error.Some?)
    && (!StillReceiving(s.main) ==>
          s.error.Some? || (s.next == s.pushed && (s.stopRequested || (c.replay && s.next == |c.input|))))
  }

  /** Neither queue outgrows its capacity. */
  ghost predicate Bounded(c: Config, s: State) {
    c.capacity > 0 ==> |s.raw| <= c.capacity && |s.queue| <= c.capacity
  }

  /** After an error is stored the input is stopped, or the thread that stored it is about to stop it. */
  ghost predicate Alarmed(s: State) {
    || s.error == None || !s.running
    || s.main == MainFailing(Stopping)
    || (exists i :: 0 <= i < |s.decoders| && s.decoders[i] == DecoderFailing(Stopping))
    || (s.writer.WriterFailing? && s.writer.stage == Stopping)
  }

  ghost predicate Inv(c: Config, s: State) {
    && Contents(c, s) && Numbering(s) && Conserved(s) && Faithful(c, s)
    && Captured(s) && Ordered(s) && Excused(s) && NoFalseAlarm(s) && InputUsedUp(c, s)
    && Bounded(c, s) && Alarmed(s)
  }

  // ---------------------------------------------------------------- Bookkeeping lemmas

  lemma {:induction false} InHandUpdate(ds: seq<DecoderPc>, i: nat, pc: DecoderPc)
    requires i < |ds|
    ensures InHand(ds[i := pc]) + Held(ds[i]) == InHand(ds) + Held(pc)
  {
    hide Held;
    var rest := ds[1..];
    if i == 0 {
      assert ds[i := pc][1..] == rest;
    } else {
      InHandUpdate(rest, i - 1, pc);
      assert ds[i := pc][1..] == rest[i - 1 := pc] && rest[i - 1] == ds[i];
      AddBoth(Held(ds[0]), InHand(rest[i - 1 := pc]), Held(ds[i]), InHand(rest), Held(pc));
    }
  }

  lemma AddBoth(h: multiset<nat>, x': multiset<nat>, a: multiset<nat>, x: multiset<nat>, b: multiset<nat>)
    requires x' + a == x + b
    ensures (h + x') + a == (h + x) + b
  {
    assert (h + x') + a == h + (x' + a);
    assert (h + x) + b == h + (x + b);
  }

  lemma {:induction false} SequencesAppend(q: seq<Item>, item: Item)
    ensures Sequences(q + [item]) == Sequences(q) + multiset{item.sequence}
  {
    if q == [] {
      assert q + [item] == [item];
    } else {
      SequencesAppend(q[1..], item);
      assert (q + [item])[1..] == q[1..] + [item];
    }
  }

  lemma {:induction false} NothingInHand(ds: seq<DecoderPc>)
    requires AllExited(ds)
    ensures InHand(ds) == multiset{}
  {
    if ds != [] {
      NothingInHand(ds[1..]);
    }
  }

  lemma {:induction false} InitialInHand(n: nat)
    ensures InHand(seq(n, i => Popping)) == multiset{}
  {
    if n > 0 {
      InitialInHand(n - 1);
      assert seq(n, i => Popping)[1..] == seq(n - 1, i => Popping);
    }
  }

  /** A number known to be somewhere beyond the raw queue has been taken from it. */
  lemma BeyondIsTaken(s: State, k: nat)
    requires Conserved(s) && Beyond(s)[k] > 0
    ensures k < Taken(s) && Beyond(s)[k] == 1
  {
    UpToHas(Taken(s), k);
  }

  lemma InitialInv(c: Config)
    ensures Inv(c, Initial(c))
  {
    var s := Initial(c);
    InitialInHand(c.decoders);
    assert Conserved(s) by {
      assert Sequences(s.queue) == multiset{};
      assert UpTo(0) == multiset{};
      assert Beyond(s) == multiset{};
    }
    StartReflectsNothing(c.health);
    assert Results(c)[..0] == [];
  }

  lemma FailStepIsNarrow(s: State, stage: Stage, f: Failure)
    ensures var n := FailStep(s, stage, f);
            n == s.(error := n.error, running := n.running, rawClosed := n.rawClosed, queueClosed := n.queueClosed)
    ensures s.error.Some? ==> FailStep(s, stage, f).error == s.error
    ensures s.rawClosed ==> FailStep(s, stage, f).rawClosed
    ensures !s.running ==> !FailStep(s, stage, f).running
  {
  }

  // ---------------------------------------------------------------- Contents and numbering

  lemma MainKeepsContents(c: Config, s: State, a: MainAct)
    requires Contents(c, s) && Numbering(s) && MainEnabled(c, s, a)
    ensures Contents(c, MainApply(c, s, a))
  {
    hide Results, AllAgree, Agrees, FailStep;
    if a == MainFails {
      FailStepIsNarrow(s, s.main.stage, InputFailed);
    }
  }

  lemma MainKeepsNumbering(c: Config, s: State, a: MainAct)
    requires Numbering(s) && MainEnabled(c, s, a)
    ensures Numbering(MainApply(c, s, a))
  {
    hide FailStep;
    if a == MainFails {
      FailStepIsNarrow(s, s.main.stage, InputFailed);
    }
  }

  lemma MainKeepsInput(c: Config, s: State, a: MainAct)
    requires Numbering(s) && Captured(s) && Ordered(s) && InputUsedUp(c, s) && MainEnabled(c, s, a)
    ensures InputUsedUp(c, MainApply(c, s, a))
  {
  }

  lemma DecoderKeepsContents(c: Config, s: State, i: nat, a: DecoderAct)
    requires Contents(c, s) && DecoderEnabled(c, s, i, a)
    ensures Contents(c, DecoderApply(c, s, i, a))
  {
    hide Agrees, DecodeFrame, FailStep;
    if a == DecoderFails {
      FailStepIsNarrow(s, s.decoders[i].stage, DecoderFailed);
    }
  }

  lemma DecoderKeepsNumbering(c: Config, s: State, i: nat, a: DecoderAct)
    requires Numbering(s) && DecoderEnabled(c, s, i, a)
    ensures Numbering(DecoderApply(c, s, i, a))
  {
    hide DecodeFrame, Held, FailStep;
    if a == DecoderFails {
      FailStepIsNarrow(s, s.decoders[i].stage, DecoderFailed);
    }
  }

  lemma PopKeepsContents(c: Config, s: State)
    requires Contents(c, s) && WriterEnabled(s, PopItem)
    ensures Contents(c, WriterApply(c, s, PopItem))
  {
    hide Results, Genuine;
  }

  lemma TreatKeepsContents(c: Config, s: State)
    requires Contents(c, s) && WriterEnabled(s, Treat)
    ensures Contents(c, WriterApply(c, s, Treat))
  {
    hide Results, Process, Genuine, AllAgree;
    ProcessKeeps(c.health, s.books);
  }

  lemma WriterKeepsContents(c: Config, s: State, a: WriterAct)
    requires Contents(c, s) && WriterEnabled(s, a)
    ensures Contents(c, WriterApply(c, s, a))
  {
    hide Results, Process, Interrupted, Park, Genuine, FailStep;
    match a {
      case PopItem => PopKeepsContents(c, s);
      case Treat => TreatKeepsContents(c, s);
      case TreatThrows(p) => InterruptedKeeps(c.health, s.books, s.books.pending[s.books.expected], p);
      case WriterFails => FailStepIsNarrow(s, s.writer.stage, s.writer.failure);
      case _ =>
    }
  }

  lemma WriterKeepsNumbering(c: Config, s: State, a: WriterAct)
    requires Numbering(s) && WriterEnabled(s, a)
    ensures Numbering(WriterApply(c, s, a))
  {
    hide Process, Interrupted, FailStep;
    if a == WriterFails {
      FailStepIsNarrow(s, s.writer.stage, s.writer.failure);
    }
  }

  lemma InterruptedKeeps(c: HealthConfig, b: Books, r: ParseResult, p: Progress)
    ensures Interrupted(c, b, r, p).pending == b.pending && Interrupted(c, b, r, p).expected == b.expected
  {
    hide Record;
  }

  lemma ProcessKeeps(c: HealthConfig, b: Books)
    requires b.expected in b.pending
    ensures Process(c, b).pending == b.pending - {b.expected} && Process(c, b).expected == b.expected + 1
  {
    hide Record;
  }

  // ---------------------------------------------------------------- Capacities and the end of input

  lemma MainKeepsLimits(c: Config, s: State, a: MainAct)
    requires Captured(s) && Bounded(c, s) && Alarmed(s) && MainEnabled(c, s, a)
    ensures Bounded(c, MainApply(c, s, a)) && Alarmed(MainApply(c, s, a))
  {
    hide AllExited;
  }

  lemma DecoderKeepsLimits(c: Config, s: State, i: nat, a: DecoderAct)
    requires Captured(s) && InputUsedUp(c, s) && Bounded(c, s) && DecoderEnabled(c, s, i, a)
    ensures Bounded(c, DecoderApply(c, s, i, a)) && InputUsedUp(c, DecoderApply(c, s, i, a))
  {
    hide DecodeFrame, Held;
  }

  lemma DecoderKeepsAlarmed(c: Config, s: State, i: nat, a: DecoderAct)
    requires Captured(s) && Alarmed(s) && DecoderEnabled(c, s, i, a)
    ensures Alarmed(DecoderApply(c, s, i, a))
  {
    hide DecodeFrame, Held;
    var n := DecoderApply(c, s, i, a);
    if j :| 0 <= j < |s.decoders| && s.decoders[j] == DecoderFailing(Stopping) {
      assert j != i ==> n.decoders[j] == DecoderFailing(Stopping);
    }
    assert n.decoders[i] == n.decoders[i];
  }

  lemma WriterFailsKeepsLimits(c: Config, s: State)
    requires Captured(s) && InputUsedUp(c, s) && Bounded(c, s) && WriterEnabled(s, WriterFails)
    ensures Bounded(c, WriterApply(c, s, WriterFails)) && InputUsedUp(c, WriterApply(c, s, WriterFails))
  {
  }

  lemma WriterKeepsLimits(c: Config, s: State, a: WriterAct)
    requires Captured(s) && InputUsedUp(c, s) && Bounded(c, s) && WriterEnabled(s, a)
    ensures Bounded(c, WriterApply(c, s, a)) && InputUsedUp(c, WriterApply(c, s, a))
  {
    hide Process, Interrupted, Park, FailStep, Captured;
    if a == WriterFails {
      WriterFailsKeepsLimits(c, s);
    }
  }

  lemma WriterKeepsAlarmed(c: Config, s: State, a: WriterAct)
    requires Captured(s) && Alarmed(s) && WriterEnabled(s, a)
    ensures Alarmed(WriterApply(c, s, a))
  {
    hide Process, Interrupted, Park;
  }

  // ---------------------------------------------------------------- Conservation

  lemma MainKeepsConserved(c: Config, s: State, a: MainAct)
    requires Conserved(s) && MainEnabled(c, s, a)
    ensures Conserved(MainApply(c, s, a))
  {
    hide InHand, Sequences, Arrived, UpTo, FailStep;
    if a == MainFails {
      FailStepIsNarrow(s, s.main.stage, InputFailed);
    }
  }

  lemma DecoderKeepsConserved(c: Config, s: State, i: nat, a: DecoderAct)
    requires Numbering(s) && Conserved(s) && DecoderEnabled(c, s, i, a)
    ensures Conserved(DecoderApply(c, s, i, a))
  {
    hide Conserved, Numbering, DecoderEnabled, DecoderApply;
    match a {
      case PopRaw => PopRawConserves(c, s, i);
      case PushItem => PushItemConserves(c, s, i);
      case DecoderFails => DecoderFailsConserves(c, s, i);
      case _ => GivingUpConserves(c, s, i, a);
    }
  }

  lemma PushItemConserves(c: Config, s: State, i: nat)
    requires Conserved(s) && DecoderEnabled(c, s, i, PushItem)
    ensures Conserved(DecoderApply(c, s, i, PushItem))
  {
    hide InHand, Sequences, Arrived, DecodeFrame, UpTo;
    var n := DecoderApply(c, s, i, PushItem);
    var work := s.decoders[i].work;
    InHandUpdate(s.decoders, i, n.decoders[i]);
    SequencesAppend(s.queue, Item(work.sequence, DecodeFrame(work.bytes)));
    PassOn(InHand(s.decoders), InHand(n.decoders), Sequences(s.queue), Arrived(s.books), s.lost, work.sequence);
  }

  lemma GivingUpConserves(c: Config, s: State, i: nat, a: DecoderAct)
    requires Conserved(s) && DecoderEnabled(c, s, i, a)
    requires a == SeeRawEnd || a == ItemRefused || a == DecoderThrows
    ensures Conserved(DecoderApply(c, s, i, a))
  {
    hide InHand, Sequences, Arrived, DecodeFrame, UpTo;
    var n := DecoderApply(c, s, i, a);
    InHandUpdate(s.decoders, i, n.decoders[i]);
    PutAway(InHand(s.decoders), InHand(n.decoders), Sequences(s.queue), Arrived(s.books), s.lost, Held(s.decoders[i]));
  }

  lemma PopRawConserves(c: Config, s: State, i: nat)
    requires Numbering(s) && Conserved(s) && DecoderEnabled(c, s, i, PopRaw)
    ensures Conserved(DecoderApply(c, s, i, PopRaw))
  {
    hide InHand, Sequences, Arrived, UpTo;
    var n := DecoderApply(c, s, i, PopRaw);
    InHandUpdate(s.decoders, i, n.decoders[i]);
    UpToNext(Taken(s));
    PickUp(InHand(s.decoders), InHand(n.decoders), Sequences(s.queue), Arrived(s.books), s.lost, Taken(s));
  }

  lemma DecoderFailsConserves(c: Config, s: State, i: nat)
    requires Conserved(s) && DecoderEnabled(c, s, i, DecoderFails)
    ensures Conserved(DecoderApply(c, s, i, DecoderFails))
  {
    hide InHand, Sequences, Arrived, UpTo, FailStep;
    var n := DecoderApply(c, s, i, DecoderFails);
    FailStepIsNarrow(s, s.decoders[i].stage, DecoderFailed);
    InHandUpdate(s.decoders, i, n.decoders[i]);
    NothingMoved(InHand(s.decoders), InHand(n.decoders));
  }

  lemma NothingMoved(h: multiset<nat>, h': multiset<nat>)
    requires h' + multiset{} == h + multiset{}
    ensures h' == h
  {
    assert h' == h' + multiset{} && h == h + multiset{};
  }

  lemma PickUp(h: multiset<nat>, h': multiset<nat>, q: multiset<nat>, r: multiset<nat>, l: multiset<nat>, k: nat)
    requires h' + multiset{} == h + multiset{k}
    ensures h' + q + r + l == (h + q + r + l) + multiset{k}
  {
    assert h' == h + multiset{k};
  }

  lemma PassOn(h: multiset<nat>, h': multiset<nat>, q: multiset<nat>, r: multiset<nat>, l: multiset<nat>, k: nat)
    requires h' + multiset{k} == h + multiset{}
    ensures h' + (q + multiset{k}) + r + l == h + q + r + l
  {
    assert h == h' + multiset{k};
  }

  lemma PutAway(h: multiset<nat>, h': multiset<nat>, q: multiset<nat>, r: multiset<nat>, l: multiset<nat>, x: multiset<nat>)
    requires h' + x == h + multiset{}
    ensures h' + q + r + (l + x) == h + q + r + l
  {
    assert h == h' + x;
  }

  lemma UpToNext(n: nat)
    ensures UpTo(n + 1) == UpTo(n) + multiset{n}
  {
  }

  lemma QueueFront(q: seq<Item>)
    requires q != []
    ensures Sequences(q) == multiset{q[0].sequence} + Sequences(q[1..])
  {
  }

  lemma WriterKeepsConserved(c: Config, s: State, a: WriterAct)
    requires Conserved(s) && WriterEnabled(s, a)
    ensures Conserved(WriterApply(c, s, a))
  {
    hide InHand, Sequences, UpTo, Process, Interrupted, Arrived, FailStep;
    if a == WriterFails {
      FailStepIsNarrow(s, s.writer.stage, s.writer.failure);
    }
    var n := WriterApply(c, s, a);
    var h, q, r := InHand(s.decoders), Sequences(s.queue[if s.queue == [] then 0 else 1..]), Arrived(s.books);
    match a {
      case PopItem =>
        QueueFront(s.queue);
        if s.queue[0].sequence !in s.books.pending {
          ArrivedPark(s.books, s.queue[0]);
        }
        LeaveQueue(h, q, r, s.lost, s.queue[0].sequence);
      case ParkThrows =>
        QueueFront(s.queue);
        LeaveQueue(h, q, r, s.lost, s.queue[0].sequence);
      case Treat => ProcessArrived(c.health, s.books);
      case TreatThrows(p) =>
        InterruptedKeeps(c.health, s.books, s.books.pending[s.books.expected], p);
        SameArrived(s.books, n.books);
      case _ =>
    }
  }

  lemma LeaveQueue(h: multiset<nat>, q: multiset<nat>, r: multiset<nat>, l: multiset<nat>, k: nat)
    ensures h + (multiset{k} + q) + r + l == h + q + (r + multiset{k}) + l
    ensures h + (multiset{k} + q) + r + l == h + q + r + (l + multiset{k})
  {
  }

  lemma SameArrived(a: Books, b: Books)
    requires a.expected == b.expected && a.pending == b.pending
    ensures Arrived(a) == Arrived(b)
  {
  }

  /** A number that comes out of the decoded queue is not parked already. */
  lemma FrontIsNew(s: State)
    requires Conserved(s) && s.queue != []
    ensures s.queue[0].sequence !in s.books.pending
  {
    hide InHand, UpTo;
    var k := s.queue[0].sequence;
    assert Sequences(s.queue)[k] >= 1;
    assert Beyond(s)[k] >= 1;
    BeyondIsTaken(s, k);
    assert Arrived(s.books)[k] == 0;
    assert multiset(s.books.pending.Keys)[k] == 0;
  }

  // ---------------------------------------------------------------- What the writer has produced

  lemma MainKeepsFaithful(c: Config, s: State, a: MainAct)
    requires Faithful(c, s) && MainEnabled(c, s, a)
    ensures Faithful(c, MainApply(c, s, a))
  {
    hide Reflects, Torn, Results, FailStep;
    if a == MainFails {
      FailStepIsNarrow(s, s.main.stage, InputFailed);
    }
  }

  lemma DecoderKeepsFaithful(c: Config, s: State, i: nat, a: DecoderAct)
    requires Faithful(c, s) && DecoderEnabled(c, s, i, a)
    ensures Faithful(c, DecoderApply(c, s, i, a))
  {
    hide Reflects, Torn, Results, DecodeFrame, FailStep;
    if a == DecoderFails {
      FailStepIsNarrow(s, s.decoders[i].stage, DecoderFailed);
    }
  }

  lemma ParkedIsPushed(s: State, k: nat)
    requires Conserved(s) && k in s.books.pending
    ensures k < s.pushed
  {
    hide InHand, Sequences, UpTo;
    assert Arrived(s.books)[k] >= 1;
    assert Beyond(s)[k] >= 1;
    BeyondIsTaken(s, k);
  }

  lemma InterruptedIsTorn(c: HealthConfig, b: Books, less: seq<ParseResult>, r: ParseResult, p: Progress)
    requires Reflects(c, b, less)
    ensures Torn(c, Interrupted(c, b, r, p), less, less + [r])
  {
    hide Record, FramesOf, SamplesOf, TransitionsOf, After;
    CountOne(b, less, r);
    ObserveOne(c, Count(b, r), less, r);
    ExportOne(Observe(c, Count(b, r), r), less, r);
  }

  lemma TreatKeepsFaithful(c: Config, s: State)
    requires Contents(c, s) && Faithful(c, s) && WriterEnabled(s, Treat)
    ensures Faithful(c, WriterApply(c, s, Treat))
  {
    hide Torn, Results, Reflects, Process;
    var rs, e := Results(c), s.books.expected;
    ProcessReflects(c.health, s.books, rs[..e]);
    ProcessKeeps(c.health, s.books);
    assert rs[..e] + [rs[e]] == rs[..e + 1];
  }

  lemma ThrowKeepsFaithful(c: Config, s: State, p: Progress)
    requires Contents(c, s) && Conserved(s) && Faithful(c, s) && WriterEnabled(s, TreatThrows(p))
    ensures Faithful(c, WriterApply(c, s, TreatThrows(p)))
  {
    hide Torn, Results, Reflects, Interrupted, Conserved;
    var rs, e := Results(c), s.books.expected;
    ParkedIsPushed(s, e);
    InterruptedIsTorn(c.health, s.books, rs[..e], rs[e], p);
    InterruptedKeeps(c.health, s.books, rs[e], p);
    assert rs[..e] + [rs[e]] == rs[..e + 1];
  }

  lemma PopKeepsFaithful(c: Config, s: State)
    requires Faithful(c, s) && WriterEnabled(s, PopItem)
    ensures Faithful(c, WriterApply(c, s, PopItem))
  {
    hide Torn, Results, Reflects;
    ParkReflects(c.health, s.books, s.queue[0], Results(c)[..s.books.expected]);
  }

  lemma WriterKeepsFaithful(c: Config, s: State, a: WriterAct)
    requires Contents(c, s) && Conserved(s) && Captured(s) && Faithful(c, s) && WriterEnabled(s, a)
    ensures Faithful(c, WriterApply(c, s, a))
  {
    hide Torn, Results, Reflects, Process, Interrupted, Park, Conserved, Contents, FailStep;
    match a {
      case Treat => TreatKeepsFaithful(c, s);
      case TreatThrows(p) => ThrowKeepsFaithful(c, s, p);
      case PopItem => PopKeepsFaithful(c, s);
      case WriterFails => FailStepIsNarrow(s, s.writer.stage, s.writer.failure);
      case _ =>
    }
  }

  lemma ParkReflects(c: HealthConfig, b: Books, item: Item, rs: seq<ParseResult>)
    ensures Reflects(c, Park(b, item), rs) <==> Reflects(c, b, rs)
  {
    hide FramesOf, SamplesOf, TransitionsOf, After;
  }

  // ---------------------------------------------------------------- Failure and shutdown

  lemma MainFailsKeepsCaptured(c: Config, s: State)
    requires Captured(s) && NoFalseAlarm(s) && Excused(s) && MainEnabled(c, s, MainFails)
    ensures var n := MainApply(c, s, MainFails); Captured(n) && NoFalseAlarm(n) && Excused(n)
  {
  }

  lemma MainKeepsCaptured(c: Config, s: State, a: MainAct)
    requires Captured(s) && NoFalseAlarm(s) && Excused(s) && MainEnabled(c, s, a)
    ensures var n := MainApply(c, s, a); Captured(n) && NoFalseAlarm(n) && Excused(n)
  {
    hide FailStep, AllExited;
    if a == MainFails {
      MainFailsKeepsCaptured(c, s);
    }
  }

  lemma MainKeepsOrder(c: Config, s: State, a: MainAct)
    requires Captured(s) && Ordered(s) && MainEnabled(c, s, a)
    ensures Ordered(MainApply(c, s, a))
  {
    hide FailStep;
    if a == MainFails {
      MainFailsKeepsOrder(c, s);
    }
  }

  lemma MainFailsKeepsOrder(c: Config, s: State)
    requires Captured(s) && Ordered(s) && MainEnabled(c, s, MainFails)
    ensures Ordered(MainApply(c, s, MainFails))
  {
  }

  lemma DecoderFailsKeepsCaptured(c: Config, s: State, i: nat)
    requires Captured(s) && NoFalseAlarm(s) && DecoderEnabled(c, s, i, DecoderFails)
    ensures var n := DecoderApply(c, s, i, DecoderFails); Captured(n) && NoFalseAlarm(n)
  {
  }

  lemma DecoderKeepsCaptured(c: Config, s: State, i: nat, a: DecoderAct)
    requires Captured(s) && NoFalseAlarm(s) && DecoderEnabled(c, s, i, a)
    ensures var n := DecoderApply(c, s, i, a); Captured(n) && NoFalseAlarm(n)
  {
    hide DecodeFrame, Held, FailStep;
    if a == DecoderFails {
      DecoderFailsKeepsCaptured(c, s, i);
    }
  }

  lemma DecoderKeepsOrder(c: Config, s: State, i: nat, a: DecoderAct)
    requires Captured(s) && Ordered(s) && DecoderEnabled(c, s, i, a)
    ensures Ordered(DecoderApply(c, s, i, a))
  {
    hide DecodeFrame, Held;
  }

  lemma DecoderKeepsExcused(c: Config, s: State, i: nat, a: DecoderAct)
    requires Ordered(s) && Excused(s) && DecoderEnabled(c, s, i, a)
    ensures Excused(DecoderApply(c, s, i, a))
  {
    hide DecodeFrame;
    var n := DecoderApply(c, s, i, a);
    if j :| 0 <= j < |s.decoders| && s.decoders[j] == DecoderFailing(Capturing) {
      assert j != i ==> n.decoders[j] == DecoderFailing(Capturing);
    }
    assert a == DecoderThrows ==> n.decoders[i] == DecoderFailing(Capturing);
  }

  /** What the writer checks for cannot be there: no duplicate, and no gap without a cause. */
  predicate ChecksPass(s: State, a: WriterAct)
    requires WriterEnabled(s, a)
  {
    && (a == PopItem ==> s.queue[0].sequence !in s.books.pending)
    && (a == SeeQueueEnd && s.books.pending != map[] ==> s.error.Some?)
  }

  lemma WriterFailsKeepsCaptured(c: Config, s: State)
    requires Captured(s) && WriterEnabled(s, WriterFails)
    ensures Captured(WriterApply(c, s, WriterFails))
  {
  }

  lemma WriterKeepsCaptured(c: Config, s: State, a: WriterAct)
    requires Captured(s) && WriterEnabled(s, a)
    ensures Captured(WriterApply(c, s, a))
  {
    hide Process, Interrupted, Park, FailStep;
    if a == WriterFails {
      WriterFailsKeepsCaptured(c, s);
    }
  }

  lemma WriterKeepsAlarm(c: Config, s: State, a: WriterAct)
    requires Captured(s) && NoFalseAlarm(s) && Excused(s) && WriterEnabled(s, a) && ChecksPass(s, a)
    ensures NoFalseAlarm(WriterApply(c, s, a)) && Excused(WriterApply(c, s, a))
  {
    hide Process, Interrupted;
  }

  lemma WriterFailsKeepsOrder(c: Config, s: State)
    requires Captured(s) && Ordered(s) && WriterEnabled(s, WriterFails)
    ensures Ordered(WriterApply(c, s, WriterFails))
  {
  }

  lemma WriterKeepsOrder(c: Config, s: State, a: WriterAct)
    requires Captured(s) && Ordered(s) && WriterEnabled(s, a) && ChecksPass(s, a)
    ensures Ordered(WriterApply(c, s, a))
  {
    hide Process, Interrupted, Park, FailStep, AllExited;
    if a == WriterFails {
      WriterFailsKeepsOrder(c, s);
    }
  }

  /** If the decoded queue ends with a number missing, something has already failed. */
  lemma GapHasACause(c: Config, s: State)
    requires Conserved(s) && Faithful(c, s) && Captured(s) && Ordered(s) && Excused(s)
    requires s.writer == Awaiting && s.queue == [] && s.queueClosed && s.books.pending != map[]
    ensures s.error.Some?
  {
    hide Reflects, Torn, Results, UpTo;
    if s.error == None {
      NothingInHand(s.decoders);
      assert s.lost == multiset{};
      assert Sequences(s.queue) == multiset{};
      assert Beyond(s) == Arrived(s.books);
      UpToSize(Taken(s));
      NothingParked(s.books);
    }
  }

  // ---------------------------------------------------------------- The whole invariant

  lemma MainKeepsInv(c: Config, s: State, a: MainAct)
    requires Inv(c, s) && MainEnabled(c, s, a)
    ensures Inv(c, MainApply(c, s, a))
  {
    hide MainApply, MainEnabled, Contents, Numbering, Conserved, Faithful, Captured, Ordered, Excused, NoFalseAlarm,
         InputUsedUp, Bounded, Alarmed;
    MainKeepsContents(c, s, a);
    MainKeepsNumbering(c, s, a);
    MainKeepsInput(c, s, a);
    MainKeepsConserved(c, s, a);
    MainKeepsFaithful(c, s, a);
    MainKeepsLimits(c, s, a);
    MainKeepsCaptured(c, s, a);
    MainKeepsOrder(c, s, a);
  }

  lemma DecoderKeepsInv(c: Config, s: State, i: nat, a: DecoderAct)
    requires Inv(c, s) && DecoderEnabled(c, s, i, a)
    ensures Inv(c, DecoderApply(c, s, i, a))
  {
    hide DecoderApply, DecoderEnabled, Contents, Numbering, Conserved, Faithful, Captured, Ordered, Excused,
         NoFalseAlarm, InputUsedUp, Bounded, Alarmed;
    DecoderKeepsContents(c, s, i, a);
    DecoderKeepsNumbering(c, s, i, a);
    DecoderKeepsConserved(c, s, i, a);
    DecoderKeepsFaithful(c, s, i, a);
    DecoderKeepsLimits(c, s, i, a);
    DecoderKeepsAlarmed(c, s, i, a);
    DecoderKeepsCaptured(c, s, i, a);
    DecoderKeepsOrder(c, s, i, a);
    DecoderKeepsExcused(c, s, i, a);
  }

  lemma WriterKeepsInv(c: Config, s: State, a: WriterAct)
    requires Inv(c, s) && WriterEnabled(s, a)
    ensures Inv(c, WriterApply(c, s, a))
  {
    hide WriterApply, Contents, Numbering, Conserved, Faithful, Captured, Ordered, Excused, NoFalseAlarm, InputUsedUp,
         Bounded, Alarmed;
    WriterKeepsContents(c, s, a);
    WriterKeepsNumbering(c, s, a);
    WriterKeepsConserved(c, s, a);
    WriterKeepsFaithful(c, s, a);
    if a == PopItem {
      FrontIsNew(s);
    }
    if a == SeeQueueEnd && s.books.pending != map[] {
      GapHasACause(c, s);
    }
    WriterKeepsLimits(c, s, a);
    WriterKeepsAlarmed(c, s, a);
    WriterKeepsCaptured(c, s, a);
    WriterKeepsAlarm(c, s, a);
    WriterKeepsOrder(c, s, a);
  }

  lemma StopKeepsInv(c: Config, s: State)
    requires Inv(c, s)
    ensures Inv(c, s.(running := false, stopRequested := true))
  {
    hide Reflects, Torn, Results, InHand, Sequences, UpTo, Arrived, AllAgree, Agrees;
  }

  /** Every step of every thread keeps the invariant. */
  lemma StepKeepsInv(c: Config, s: State, l: Label)
    requires Inv(c, s) && Enabled(c, s, l)
    ensures Inv(c, Apply(c, s, l))
  {
    hide Inv, MainApply, DecoderApply, WriterApply, MainEnabled, DecoderEnabled, WriterEnabled;
    match l {
      case Main(a) => MainKeepsInv(c, s, a);
      case Decoder(i, a) => DecoderKeepsInv(c, s, i, a);
      case Writer(a) => WriterKeepsInv(c, s, a);
      case StopRequested => StopKeepsInv(c, s);
    }
  }

  lemma {:induction false} ReachableInv(c: Config, labels: seq<Label>, trace: seq<State>, n: nat)
    requires IsRun(c, labels, trace) && n < |trace|
    ensures Inv(c, trace[n])
  {
    hide Inv, Apply, Enabled;
    if n == 0 {
      InitialInv(c);
    } else {
      ReachableInv(c, labels, trace, n - 1);
      assert Enabled(c, trace[n - 1], labels[n - 1]) && trace[n - 1 + 1] == Apply(c, trace[n - 1], labels[n - 1]);
      StepKeepsInv(c, trace[n - 1], labels[n - 1]);
    }
  }
}
