/**
 The bounded FIFO between pipeline stages (include/stgs/BlockingQueue.hpp).

 `BlockingQueue` holds the critical sections of push, pop and close.  `Monitor` adds what the
 mutex and the two condition variables do around them: threads that sleep, threads that have
 been woken but have not re-entered, notify_one calls still due (they come after the unlock)
 and closers that have yet to broadcast.  Spurious wake-ups are allowed at any time.
 */
module BlockingQueue {
  import opened Bytes

  datatype PushResult = PushWaits | PushRefused | PushDone

  datatype PopResult<T> = PopWaits | PopEnded | PopDone(value: T)

  predicate CanPush(capacity: nat, size: nat, closed: bool) {
    closed || capacity == 0 || size < capacity
  }

  predicate CanPop(size: nat, closed: bool) {
    closed || size > 0
  }

  // ---------------------------------------------------------------- The critical sections

  class BlockingQueue<T> {
    const capacity: nat
    var queue: seq<T>
    var closed: bool

    constructor (capacity: nat)
      ensures this.capacity == capacity && queue == [] && !closed
    {
      this.capacity := capacity;
      queue := [];
      closed := false;
    }

    ghost predicate Bounded()
      reads this
    {
      capacity > 0 ==> |queue| <= capacity
    }

    /** push from the evaluation of the wait predicate to the unlock. */
    method PushSection(value: T) returns (r: PushResult)
      requires Bounded()
      modifies this`queue
      ensures Bounded()
      ensures r == PushWaits <==> !CanPush(capacity, |old(queue)|, closed)
      ensures r == PushRefused <==> closed
      ensures queue == if r == PushDone then old(queue) + [value] else old(queue)
    {
      if !CanPush(capacity, |queue|, closed) {
        return PushWaits;
      }
      if closed {
        return PushRefused;
      }
      queue := queue + [value];
      return PushDone;
    }

    /** pop from the evaluation of the wait predicate to the unlock. */
    method PopSection() returns (r: PopResult<T>)
      requires Bounded()
      modifies this`queue
      ensures Bounded()
      ensures r == PopWaits <==> !CanPop(|old(queue)|, closed)
      ensures r == PopEnded <==> closed && old(queue) == []
      ensures old(queue) != [] ==> r == PopDone(old(queue)[0]) && queue == old(queue)[1..]
      ensures old(queue) == [] ==> queue == []
    {
      if !CanPop(|queue|, closed) {
        return PopWaits;
      }
      if queue == [] {
        return PopEnded;
      }
      r := PopDone(queue[0]);
      queue := queue[1..];
    }

    method Close()
      modifies this`closed
      ensures closed
    {
      closed := true;
    }
  }

  // ---------------------------------------------------------------- The monitor

  /** What a call came to, or that the queue was closed. */
  datatype Event<T> =
    | Pushed(thread: nat, value: T)
    | Refused(thread: nat, value: T)
    | Popped(thread: nat, value: T)
    | Ended(thread: nat)
    | Shut

  /** `offers` holds the argument of each push call; `log` records every result in the order of the critical sections. */
  datatype Monitor<T> = Monitor(
    capacity: nat, queue: seq<T>, closed: bool,
    sleepingConsumers: set<nat>, wokenConsumers: set<nat>,
    sleepingProducers: set<nat>, wokenProducers: set<nat>, offers: map<nat, T>,
    consumerNotes: nat, producerNotes: nat,
    closersAtConsumers: nat, closersAtProducers: nat,
    log: seq<Event<T>>)

  datatype Label<T> =
    | EnterPush(thread: nat, value: T)
    | ResumePush(thread: nat)
    | EnterPop(thread: nat)
    | ResumePop(thread: nat)
    | NotifyConsumer(thread: nat)
    | NotifyNoConsumer
    | NotifyProducer(thread: nat)
    | NotifyNoProducer
    | Close
    | BroadcastConsumers
    | BroadcastProducers
    | SpuriousConsumer(thread: nat)
    | SpuriousProducer(thread: nat)

  function Fresh<T>(capacity: nat): Monitor<T> {
    Monitor(capacity, [], false, {}, {}, {}, {}, map[], 0, 0, 0, 0, [])
  }

  predicate Outside<T>(m: Monitor<T>, t: nat) {
    && t !in m.sleepingConsumers && t !in m.wokenConsumers
    && t !in m.sleepingProducers && t !in m.wokenProducers
  }

  predicate Enabled<T>(m: Monitor<T>, l: Label<T>) {
    match l
    case EnterPush(t, _) => Outside(m, t)
    case ResumePush(t) => t in m.wokenProducers && t in m.offers
    case EnterPop(t) => Outside(m, t)
    case ResumePop(t) => t in m.wokenConsumers
    case NotifyConsumer(t) => m.consumerNotes > 0 && t in m.sleepingConsumers
    case NotifyNoConsumer => m.consumerNotes > 0 && m.sleepingConsumers == {}
    case NotifyProducer(t) => m.producerNotes > 0 && t in m.sleepingProducers
    case NotifyNoProducer => m.producerNotes > 0 && m.sleepingProducers == {}
    case Close => true
    case BroadcastConsumers => m.closersAtConsumers > 0
    case BroadcastProducers => m.closersAtProducers > 0
    case SpuriousConsumer(t) => t in m.sleepingConsumers
    case SpuriousProducer(t) => t in m.sleepingProducers
  }

  /** The push section run by thread `t`, which sleeps if its predicate is false. */
  function RunPush<T>(m: Monitor<T>, t: nat, v: T): Monitor<T> {
    if !CanPush(m.capacity, |m.queue|, m.closed) then
      m.(sleepingProducers := m.sleepingProducers + {t}, offers := m.offers[t := v])
    else if m.closed then m.(log := m.log + [Refused(t, v)])
    else m.(queue := m.queue + [v], log := m.log + [Pushed(t, v)], consumerNotes := m.consumerNotes + 1)
  }

  function RunPop<T>(m: Monitor<T>, t: nat): Monitor<T> {
    if !CanPop(|m.queue|, m.closed) then m.(sleepingConsumers := m.sleepingConsumers + {t})
    else if m.queue == [] then m.(log := m.log + [Ended(t)])
    else m.(queue := m.queue[1..], log := m.log + [Popped(t, m.queue[0])], producerNotes := m.producerNotes + 1)
  }

  function WakeConsumer<T>(m: Monitor<T>, t: nat): Monitor<T> {
    m.(sleepingConsumers := m.sleepingConsumers - {t}, wokenConsumers := m.wokenConsumers + {t})
  }

  function WakeProducer<T>(m: Monitor<T>, t: nat): Monitor<T> {
    m.(sleepingProducers := m.sleepingProducers - {t}, wokenProducers := m.wokenProducers + {t})
  }

  function Apply<T>(m: Monitor<T>, l: Label<T>): Monitor<T>
    requires Enabled(m, l)
  {
    match l
    case EnterPush(t, v) => RunPush(m, t, v)
    case ResumePush(t) => RunPush(m.(wokenProducers := m.wokenProducers - {t}), t, m.offers[t])
    case EnterPop(t) => RunPop(m, t)
    case ResumePop(t) => RunPop(m.(wokenConsumers := m.wokenConsumers - {t}), t)
    case NotifyConsumer(t) => WakeConsumer(m.(consumerNotes := m.consumerNotes - 1), t)
    case NotifyNoConsumer => m.(consumerNotes := m.consumerNotes - 1)
    case NotifyProducer(t) => WakeProducer(m.(producerNotes := m.producerNotes - 1), t)
    case NotifyNoProducer => m.(producerNotes := m.producerNotes - 1)
    case Close => m.(closed := true, log := m.log + [Shut], closersAtConsumers := m.closersAtConsumers + 1)
    case BroadcastConsumers =>
      m.(wokenConsumers := m.wokenConsumers + m.sleepingConsumers, sleepingConsumers := {},
         closersAtConsumers := m.closersAtConsumers - 1, closersAtProducers := m.closersAtProducers + 1)
    case BroadcastProducers =>
      m.(wokenProducers := m.wokenProducers + m.sleepingProducers, sleepingProducers := {},
         closersAtProducers := m.closersAtProducers - 1)
    case SpuriousConsumer(t) => WakeConsumer(m, t)
    case SpuriousProducer(t) => WakeProducer(m, t)
  }

  // ---------------------------------------------------------------- Invariant

  ghost predicate ConsumersWoken<T>(m: Monitor<T>) {
    && (m.sleepingConsumers != {} && !m.closed ==> |m.queue| <= |m.wokenConsumers| + m.consumerNotes)
    && (m.sleepingConsumers != {} && m.closed ==> m.closersAtConsumers > 0)
  }

  ghost predicate ProducersWoken<T>(m: Monitor<T>) {
    && (m.sleepingProducers != {} ==> m.capacity > 0)
    && (m.sleepingProducers != {} && !m.closed ==>
          m.capacity - |m.queue| <= |m.wokenProducers| + m.producerNotes)
    && (m.sleepingProducers != {} && m.closed ==> m.closersAtConsumers + m.closersAtProducers > 0)
  }

  /** Nobody sleeps without a wake-up on its way for every item, or slot, it could use. */
  ghost predicate NoLostWakeUp<T>(m: Monitor<T>) {
    ConsumersWoken(m) && ProducersWoken(m)
  }

  /** A thread is in one place only and a waiting push still has its argument. */
  ghost predicate Placed<T>(m: Monitor<T>) {
    && m.sleepingConsumers !! m.wokenConsumers
    && m.sleepingProducers !! m.wokenProducers
    && m.sleepingConsumers + m.wokenConsumers !! m.sleepingProducers + m.wokenProducers
    && m.sleepingProducers + m.wokenProducers <= m.offers.Keys
  }

  /** An ideal bounded queue, used by one thread at a time. */
  datatype Ideal<T> = Ideal(queue: seq<T>, closed: bool)

  /** The ideal queue after an event, if the event can happen to it at all. */
  function Perform<T(==)>(capacity: nat, q: Ideal<T>, e: Event<T>): Option<Ideal<T>> {
    match e
    case Pushed(_, v) =>
      if !q.closed && (capacity == 0 || |q.queue| < capacity) then Some(q.(queue := q.queue + [v])) else None
    case Refused(_, _) => if q.closed then Some(q) else None
    case Popped(_, v) => if q.queue != [] && q.queue[0] == v then Some(q.(queue := q.queue[1..])) else None
    case Ended(_) => if q.closed && q.queue == [] then Some(q) else None
    case Shut => Some(q.(closed := true))
  }

  /** The ideal queue after a whole log. */
  function Replayed<T(==)>(capacity: nat, log: seq<Event<T>>): Option<Ideal<T>> {
    if log == [] then Some(Ideal([], false))
    else match Replayed(capacity, log[..|log| - 1])
      case None => None
      case Some(q) => Perform(capacity, q, log[|log| - 1])
  }

  /** The results logged so far are those of the ideal queue, which is left as this one is. */
  ghost predicate Linear<T>(m: Monitor<T>) {
    && (m.capacity > 0 ==> |m.queue| <= m.capacity)
    && Replayed(m.capacity, m.log) == Some(Ideal(m.queue, m.closed))
  }

  ghost predicate Consistent<T>(m: Monitor<T>) { Placed(m) && Linear(m) }

  lemma WithOut(s: set<nat>, t: nat)
    requires t in s
    ensures |s - {t}| == |s| - 1
  {
  }

  lemma WithMore(s: set<nat>, t: nat)
    requires t !in s
    ensures |s + {t}| == |s| + 1
  {
  }

  lemma StepKeepsPlaces<T>(m: Monitor<T>, l: Label<T>)
    requires Placed(m) && Enabled(m, l)
    ensures Placed(Apply(m, l))
  {
    hide CanPush, CanPop;
  }

  lemma LogOne<T>(capacity: nat, log: seq<Event<T>>, e: Event<T>)
    ensures Replayed(capacity, log + [e])
         == match Replayed(capacity, log) case None => None case Some(q) => Perform(capacity, q, e)
  {
    assert (log + [e])[..|log|] == log;
  }

  lemma PushIsLinear<T>(m: Monitor<T>, t: nat, v: T)
    requires Linear(m)
    ensures Linear(RunPush(m, t, v))
  {
    LogOne(m.capacity, m.log, Pushed(t, v));
    LogOne(m.capacity, m.log, Refused(t, v));
  }

  lemma PopIsLinear<T>(m: Monitor<T>, t: nat)
    requires Linear(m)
    ensures Linear(RunPop(m, t))
  {
    LogOne(m.capacity, m.log, Ended(t));
    if m.queue != [] {
      LogOne(m.capacity, m.log, Popped(t, m.queue[0]));
    }
  }

  lemma StepIsLinear<T>(m: Monitor<T>, l: Label<T>)
    requires Linear(m) && Enabled(m, l)
    ensures Linear(Apply(m, l))
  {
    hide RunPush, RunPop, Replayed;
    match l {
      case EnterPush(t, v) => PushIsLinear(m, t, v);
      case ResumePush(t) => PushIsLinear(m.(wokenProducers := m.wokenProducers - {t}), t, m.offers[t]);
      case EnterPop(t) => PopIsLinear(m, t);
      case ResumePop(t) => PopIsLinear(m.(wokenConsumers := m.wokenConsumers - {t}), t);
      case Close => LogOne(m.capacity, m.log, Shut);
      case _ =>
    }
  }

  /** Taking an item, or finding none, makes up for one consumer fewer on its way. */
  lemma PopKeepsConsumers<T>(m: Monitor<T>, t: nat)
    requires ConsumersWoken(m.(consumerNotes := m.consumerNotes + 1))
    ensures ConsumersWoken(RunPop(m, t))
  {
  }

  lemma PushKeepsConsumers<T>(m: Monitor<T>, t: nat, v: T)
    requires ConsumersWoken(m)
    ensures ConsumersWoken(RunPush(m, t, v))
  {
  }

  lemma WakeKeepsConsumers<T>(m: Monitor<T>, t: nat)
    requires ConsumersWoken(m.(consumerNotes := m.consumerNotes + 1))
    requires t in m.sleepingConsumers && t !in m.wokenConsumers
    ensures ConsumersWoken(WakeConsumer(m, t))
  {
    WithMore(m.wokenConsumers, t);
  }

  lemma StepKeepsConsumers<T>(m: Monitor<T>, l: Label<T>)
    requires Placed(m) && ConsumersWoken(m) && Enabled(m, l)
    ensures ConsumersWoken(Apply(m, l))
  {
    hide RunPush, RunPop, CanPush, CanPop;
    match l {
      case EnterPush(t, v) => PushKeepsConsumers(m, t, v);
      case ResumePush(t) => PushKeepsConsumers(m.(wokenProducers := m.wokenProducers - {t}), t, m.offers[t]);
      case EnterPop(t) => PopKeepsConsumers(m, t);
      case ResumePop(t) =>
        WithOut(m.wokenConsumers, t);
        PopKeepsConsumers(m.(wokenConsumers := m.wokenConsumers - {t}), t);
      case NotifyConsumer(t) => WakeKeepsConsumers(m.(consumerNotes := m.consumerNotes - 1), t);
      case SpuriousConsumer(t) => WakeKeepsConsumers(m, t);
      case _ =>
    }
  }

  /** Filling a slot, or finding none, makes up for one producer fewer on its way. */
  lemma PushKeepsProducers<T>(m: Monitor<T>, t: nat, v: T)
    requires Linear(m) && ProducersWoken(m.(producerNotes := m.producerNotes + 1))
    ensures ProducersWoken(RunPush(m, t, v))
  {
  }

  lemma PopKeepsProducers<T>(m: Monitor<T>, t: nat)
    requires ProducersWoken(m)
    ensures ProducersWoken(RunPop(m, t))
  {
  }

  lemma WakeKeepsProducers<T>(m: Monitor<T>, t: nat)
    requires ProducersWoken(m.(producerNotes := m.producerNotes + 1))
    requires t in m.sleepingProducers && t !in m.wokenProducers
    ensures ProducersWoken(WakeProducer(m, t))
  {
    WithMore(m.wokenProducers, t);
  }

  lemma StepKeepsProducers<T>(m: Monitor<T>, l: Label<T>)
    requires Placed(m) && Linear(m) && ProducersWoken(m) && Enabled(m, l)
    ensures ProducersWoken(Apply(m, l))
  {
    hide RunPush, RunPop, CanPush, CanPop;
    match l {
      case EnterPush(t, v) => PushKeepsProducers(m, t, v);
      case ResumePush(t) =>
        WithOut(m.wokenProducers, t);
        PushKeepsProducers(m.(wokenProducers := m.wokenProducers - {t}), t, m.offers[t]);
      case EnterPop(t) => PopKeepsProducers(m, t);
      case ResumePop(t) => PopKeepsProducers(m.(wokenConsumers := m.wokenConsumers - {t}), t);
      case NotifyProducer(t) => WakeKeepsProducers(m.(producerNotes := m.producerNotes - 1), t);
      case SpuriousProducer(t) => WakeKeepsProducers(m, t);
      case _ =>
    }
  }

  /** Every step of every thread keeps the invariant. */
  lemma StepKeepsInvariant<T>(m: Monitor<T>, l: Label<T>)
    requires Consistent(m) && NoLostWakeUp(m) && Enabled(m, l)
    ensures Consistent(Apply(m, l)) && NoLostWakeUp(Apply(m, l))
  {
    hide Placed, Linear, ConsumersWoken, ProducersWoken, Apply, Enabled;
    StepKeepsPlaces(m, l);
    StepIsLinear(m, l);
    StepKeepsConsumers(m, l);
    StepKeepsProducers(m, l);
  }

  ghost predicate IsRun<T>(labels: seq<Label<T>>, trace: seq<Monitor<T>>) {
    && |trace| == |labels| + 1
    && trace[0] == Fresh(trace[0].capacity)
    && forall i :: 0 <= i < |labels| ==> Enabled(trace[i], labels[i]) && trace[i + 1] == Apply(trace[i], labels[i])
  }

  /** No reachable state has lost a wake-up, and values leave in the order they came. */
  lemma {:induction false} ReachableIsSafe<T>(labels: seq<Label<T>>, trace: seq<Monitor<T>>, n: nat)
    requires IsRun(labels, trace) && n < |trace|
    ensures Consistent(trace[n]) && NoLostWakeUp(trace[n])
  {
    hide Apply, Enabled;
    if n > 0 {
      ReachableIsSafe(labels, trace, n - 1);
      assert Enabled(trace[n - 1], labels[n - 1]) && trace[n - 1 + 1] == Apply(trace[n - 1], labels[n - 1]);
      StepKeepsInvariant(trace[n - 1], labels[n - 1]);
    }
  }

  // ---------------------------------------------------------------- No thread sleeps for ever

  /** Steps the monitor takes by itself: nobody new arrives and nothing spurious happens. */
  predicate Internal<T>(l: Label<T>) {
    || l.ResumePush? || l.ResumePop? || l.NotifyConsumer? || l.NotifyNoConsumer? || l.NotifyProducer?
    || l.NotifyNoProducer? || l.BroadcastConsumers? || l.BroadcastProducers?
  }

  predicate Settled<T>(m: Monitor<T>) {
    && m.wokenConsumers == {} && m.wokenProducers == {}
    && m.consumerNotes == 0 && m.producerNotes == 0
    && m.closersAtConsumers == 0 && m.closersAtProducers == 0
  }

  /** Once things have settled, whoever still sleeps is waiting for something that is not there. */
  lemma SleepersHaveReason<T>(m: Monitor<T>)
    requires Consistent(m) && NoLostWakeUp(m) && Settled(m)
    ensures m.sleepingConsumers != {} ==> !CanPop(|m.queue|, m.closed)
    ensures m.sleepingProducers != {} ==> !CanPush(m.capacity, |m.queue|, m.closed)
  {
  }

  /**
   A sleeper may wake up without being notified; while its predicate is false it goes back to sleep,
   and nothing else has changed, the argument of a waiting push included.
   */
  lemma SpuriousWakeUpsAreHarmless<T>(m: Monitor<T>, t: nat)
    requires Consistent(m)
    ensures t in m.sleepingConsumers && !CanPop(|m.queue|, m.closed) ==>
              && Enabled(m, SpuriousConsumer(t)) && Enabled(Apply(m, SpuriousConsumer(t)), ResumePop(t))
              && Apply(Apply(m, SpuriousConsumer(t)), ResumePop(t)) == m
    ensures t in m.sleepingProducers && !CanPush(m.capacity, |m.queue|, m.closed) ==>
              && Enabled(m, SpuriousProducer(t)) && Enabled(Apply(m, SpuriousProducer(t)), ResumePush(t))
              && Apply(Apply(m, SpuriousProducer(t)), ResumePush(t)) == m
  {
    if t in m.sleepingConsumers {
      BackToSleep(m.sleepingConsumers, m.wokenConsumers, t);
    }
    if t in m.sleepingProducers {
      BackToSleep(m.sleepingProducers, m.wokenProducers, t);
      assert m.offers[t := m.offers[t]] == m.offers;
    }
  }

  lemma BackToSleep(sleeping: set<nat>, woken: set<nat>, t: nat)
    requires t in sleeping && sleeping !! woken
    ensures (sleeping - {t}) + {t} == sleeping && (woken + {t}) - {t} == woken
  {
  }

  /** Until things have settled, some internal step can be taken. */
  lemma UnsettledCanStep<T>(m: Monitor<T>) returns (l: Label<T>)
    requires Consistent(m) && !Settled(m)
    ensures Internal(l) && Enabled(m, l)
  {
    if m.wokenConsumers != {} {
      var t :| t in m.wokenConsumers;
      l := ResumePop(t);
    } else if m.wokenProducers != {} {
      var t :| t in m.wokenProducers;
      l := ResumePush(t);
    } else if m.consumerNotes > 0 {
      if t :| t in m.sleepingConsumers {
        l := NotifyConsumer(t);
      } else {
        l := NotifyNoConsumer;
      }
    } else if m.producerNotes > 0 {
      if t :| t in m.sleepingProducers {
        l := NotifyProducer(t);
      } else {
        l := NotifyNoProducer;
      }
    } else if m.closersAtConsumers > 0 {
      l := BroadcastConsumers;
    } else {
      l := BroadcastProducers;
    }
  }

  function Broadcasts<T>(m: Monitor<T>): nat { 2 * m.closersAtConsumers + m.closersAtProducers }

  function Activity<T>(m: Monitor<T>): nat {
    4 * (|m.sleepingConsumers| + |m.sleepingProducers|) + 5 * (|m.wokenConsumers| + |m.wokenProducers|)
    + 2 * (m.consumerNotes + m.producerNotes)
  }

  lemma PushActivity<T>(m: Monitor<T>, t: nat, v: T)
    requires t !in m.sleepingProducers
    ensures Broadcasts(RunPush(m, t, v)) == Broadcasts(m) && Activity(RunPush(m, t, v)) <= Activity(m) + 4
  {
    WithMore(m.sleepingProducers, t);
  }

  lemma PopActivity<T>(m: Monitor<T>, t: nat)
    requires t !in m.sleepingConsumers
    ensures Broadcasts(RunPop(m, t)) == Broadcasts(m) && Activity(RunPop(m, t)) <= Activity(m) + 4
  {
    WithMore(m.sleepingConsumers, t);
  }

  lemma WakeActivity<T>(m: Monitor<T>, t: nat)
    requires Placed(m)
    ensures t in m.sleepingConsumers ==> Activity(WakeConsumer(m, t)) == Activity(m) + 1
    ensures t in m.sleepingProducers ==> Activity(WakeProducer(m, t)) == Activity(m) + 1
  {
    if t in m.sleepingConsumers {
      WithOut(m.sleepingConsumers, t);
      WithMore(m.wokenConsumers, t);
    }
    if t in m.sleepingProducers {
      WithOut(m.sleepingProducers, t);
      WithMore(m.wokenProducers, t);
    }
  }

  /** Internal steps cannot go on for ever, so the settled state is reached. */
  lemma InternalStepsEnd<T>(m: Monitor<T>, l: Label<T>)
    requires Placed(m) && Enabled(m, l) && Internal(l)
    ensures var n := Apply(m, l);
            || Broadcasts(n) < Broadcasts(m)
            || (Broadcasts(n) == Broadcasts(m) && Activity(n) < Activity(m))
  {
    hide RunPush, RunPop, CanPush, CanPop;
    match l {
      case ResumePush(t) =>
        WithOut(m.wokenProducers, t);
        PushActivity(m.(wokenProducers := m.wokenProducers - {t}), t, m.offers[t]);
      case ResumePop(t) =>
        WithOut(m.wokenConsumers, t);
        PopActivity(m.(wokenConsumers := m.wokenConsumers - {t}), t);
      case NotifyConsumer(t) => WakeActivity(m.(consumerNotes := m.consumerNotes - 1), t);
      case NotifyProducer(t) => WakeActivity(m.(producerNotes := m.producerNotes - 1), t);
      case _ =>
    }
  }

  // ---------------------------------------------------------------- Every call takes effect once, as on an ideal queue

  predicate WaitsToPush<T>(m: Monitor<T>, t: nat) { t in m.sleepingProducers || t in m.wokenProducers }

  predicate WaitsToPop<T>(m: Monitor<T>, t: nat) { t in m.sleepingConsumers || t in m.wokenConsumers }

  /** The arguments of the push calls thread `t` has made. */
  ghost function PushCalls<T>(t: nat, labels: seq<Label<T>>): seq<T> {
    if labels == [] then []
    else
      var l := labels[|labels| - 1];
      PushCalls(t, labels[..|labels| - 1]) + (if l.EnterPush? && l.thread == t then [l.value] else [])
  }

  /** The arguments of the push calls of thread `t` that have an answer. */
  ghost function PushAnswers<T>(t: nat, log: seq<Event<T>>): seq<T> {
    if log == [] then []
    else
      var e := log[|log| - 1];
      PushAnswers(t, log[..|log| - 1]) + (if (e.Pushed? || e.Refused?) && e.thread == t then [e.value] else [])
  }

  ghost function PopCalls<T>(t: nat, labels: seq<Label<T>>): nat {
    if labels == [] then 0
    else
      var l := labels[|labels| - 1];
      PopCalls(t, labels[..|labels| - 1]) + (if l.EnterPop? && l.thread == t then 1 else 0)
  }

  ghost function PopAnswers<T>(t: nat, log: seq<Event<T>>): nat {
    if log == [] then 0
    else
      var e := log[|log| - 1];
      PopAnswers(t, log[..|log| - 1]) + (if (e.Popped? || e.Ended?) && e.thread == t then 1 else 0)
  }

  /** The push of thread `t` that is still waiting, if there is one. */
  ghost function Outstanding<T>(m: Monitor<T>, t: nat): seq<T> {
    if WaitsToPush(m, t) && t in m.offers then [m.offers[t]] else []
  }

  ghost function Answered<T>(m: Monitor<T>, t: nat): seq<T> { PushAnswers(t, m.log) + Outstanding(m, t) }

  ghost function PopsSeen<T>(m: Monitor<T>, t: nat): nat {
    PopAnswers(t, m.log) + (if WaitsToPop(m, t) then 1 else 0)
  }

  lemma AnswersAppend<T>(t: nat, log: seq<Event<T>>, e: Event<T>)
    ensures PushAnswers(t, log + [e])
         == PushAnswers(t, log) + (if (e.Pushed? || e.Refused?) && e.thread == t then [e.value] else [])
    ensures PopAnswers(t, log + [e]) == PopAnswers(t, log) + (if (e.Popped? || e.Ended?) && e.thread == t then 1 else 0)
  {
    assert (log + [e])[..|log|] == log;
  }

  /** The section of push answers, or puts to sleep, exactly the call it runs for. */
  lemma PushSees<T>(m: Monitor<T>, u: nat, v: T, t: nat)
    requires Placed(m) && !WaitsToPush(m, u)
    ensures var n := RunPush(m, u, v);
            && Answered(n, t) == Answered(m, t) + (if u == t then [v] else [])
            && PopsSeen(n, t) == PopsSeen(m, t)
  {
    hide PushAnswers, PopAnswers;
    AnswersAppend(t, m.log, Pushed(u, v));
    AnswersAppend(t, m.log, Refused(u, v));
  }

  lemma PopSees<T>(m: Monitor<T>, u: nat, t: nat)
    requires !WaitsToPop(m, u)
    ensures var n := RunPop(m, u);
            && Answered(n, t) == Answered(m, t)
            && PopsSeen(n, t) == PopsSeen(m, t) + (if u == t then 1 else 0)
  {
    hide PushAnswers, PopAnswers;
    AnswersAppend(t, m.log, Ended(u));
    if m.queue != [] {
      AnswersAppend(t, m.log, Popped(u, m.queue[0]));
    }
  }

  /** Leaving the set of woken producers takes back what the section then answers. */
  lemma LeavingProducers<T>(m: Monitor<T>, u: nat, t: nat)
    requires Placed(m) && u in m.wokenProducers
    ensures var n := m.(wokenProducers := m.wokenProducers - {u});
            && Placed(n) && !WaitsToPush(n, u) && PopsSeen(n, t) == PopsSeen(m, t)
            && Answered(n, t) + (if u == t then [m.offers[u]] else []) == Answered(m, t)
  {
    hide PushAnswers, PopAnswers;
  }

  lemma LeavingConsumers<T>(m: Monitor<T>, u: nat, t: nat)
    requires Placed(m) && u in m.wokenConsumers
    ensures var n := m.(wokenConsumers := m.wokenConsumers - {u});
            && !WaitsToPop(n, u) && Answered(n, t) == Answered(m, t)
            && PopsSeen(n, t) + (if u == t then 1 else 0) == PopsSeen(m, t)
  {
    hide PushAnswers, PopAnswers;
  }

  lemma StepSees<T>(m: Monitor<T>, l: Label<T>, t: nat)
    requires Placed(m) && Enabled(m, l)
    ensures var n := Apply(m, l);
            && Answered(n, t) == Answered(m, t) + (if l.EnterPush? && l.thread == t then [l.value] else [])
            && PopsSeen(n, t) == PopsSeen(m, t) + (if l.EnterPop? && l.thread == t then 1 else 0)
  {
    hide RunPush, RunPop, PushAnswers, PopAnswers;
    match l {
      case EnterPush(u, v) => PushSees(m, u, v, t);
      case ResumePush(u) =>
        LeavingProducers(m, u, t);
        PushSees(m.(wokenProducers := m.wokenProducers - {u}), u, m.offers[u], t);
      case EnterPop(u) => PopSees(m, u, t);
      case ResumePop(u) =>
        LeavingConsumers(m, u, t);
        PopSees(m.(wokenConsumers := m.wokenConsumers - {u}), u, t);
      case Close => AnswersAppend(t, m.log, Shut);
      case _ =>
    }
  }

  /**
   The refinement: in every reachable state the answers given so far are those of an ideal bounded
   first-in first-out queue, each call of each thread has been answered once, with its own argument,
   or is still waiting, and what is left is the queue.
   */
  lemma {:induction false} EveryCallIsAnswered<T>(labels: seq<Label<T>>, trace: seq<Monitor<T>>, n: nat, t: nat)
    requires IsRun(labels, trace) && n < |trace|
    ensures var m := trace[n];
            && Replayed(m.capacity, m.log) == Some(Ideal(m.queue, m.closed))
            && PushCalls(t, labels[..n]) == PushAnswers(t, m.log) + Outstanding(m, t)
            && PopCalls(t, labels[..n]) == PopAnswers(t, m.log) + (if WaitsToPop(m, t) then 1 else 0)
  {
    hide Apply, Enabled, Replayed, Outstanding, WaitsToPop;
    ReachableIsSafe(labels, trace, n);
    if n == 0 {
      NothingOutstanding(trace[0], t);
    } else {
      EveryCallIsAnswered(labels, trace, n - 1, t);
      ReachableIsSafe(labels, trace, n - 1);
      assert Enabled(trace[n - 1], labels[n - 1]) && trace[n - 1 + 1] == Apply(trace[n - 1], labels[n - 1]);
      StepSees(trace[n - 1], labels[n - 1], t);
      assert labels[..n][..n - 1] == labels[..n - 1];
    }
  }

  lemma NothingOutstanding<T>(m: Monitor<T>, t: nat)
    requires m == Fresh(m.capacity)
    ensures Outstanding(m, t) == [] && !WaitsToPop(m, t) && m.log == []
  {
  }

  // ---------------------------------------------------------------- The ideal queue is first-in first-out

  ghost function ValuesIn<T>(log: seq<Event<T>>): seq<T> {
    if log == [] then []
    else ValuesIn(log[..|log| - 1]) + (if log[|log| - 1].Pushed? then [log[|log| - 1].value] else [])
  }

  ghost function ValuesOut<T>(log: seq<Event<T>>): seq<T> {
    if log == [] then []
    else ValuesOut(log[..|log| - 1]) + (if log[|log| - 1].Popped? then [log[|log| - 1].value] else [])
  }

  /** Values come out in the order in which they went in, and those not yet out are the queue. */
  lemma {:induction false} FirstInFirstOut<T>(capacity: nat, log: seq<Event<T>>)
    requires Replayed(capacity, log).Some?
    ensures ValuesIn(log) == ValuesOut(log) + Replayed(capacity, log).value.queue
  {
    if log != [] {
      var front, e := log[..|log| - 1], log[|log| - 1];
      FirstInFirstOut(capacity, front);
      var q := Replayed(capacity, front).value.queue;
      match e {
        case Pushed(_, v) => assert (ValuesOut(front) + q) + [v] == ValuesOut(front) + (q + [v]);
        case Popped(_, v) => assert ValuesOut(front) + q == (ValuesOut(front) + [q[0]]) + q[1..];
        case _ =>
      }
    }
  }
}
