/**
 The writer of the ground station pipeline (writerLoop of apps/ground_station/GroundStationWorkers.cpp).

 Decoders finish in any order; the writer parks each result under its sequence number and treats
 only the number it expects next.  `Books` is everything the loop reads and updates.
 */
module OrderedWriter {
  import opened Bytes
  import opened FrameCodec
  import opened StationHealth

  datatype Item = Item(sequence: nat, result: ParseResult)

  datatype Books = Books(
    expected: nat, pending: map<nat, ParseResult>, decoded: nat, rejected: nat,
    health: Memory, transitions: seq<Transition>, written: seq<TelemetryFrame>)

  datatype Outcome = Complete | DuplicateSequence | SequenceGap

  const START := Books(0, map[], 0, 0, Memory([], Nominal), [], [])

  // ---------------------------------------------------------------- One result, step by step

  function Count(b: Books, r: ParseResult): Books {
    if r.Parsed? then b.(decoded := b.decoded + 1) else b.(rejected := b.rejected + 1)
  }

  function Observe(c: HealthConfig, b: Books, r: ParseResult): Books {
    var (memory, t) := Record(c, b.health, SampleOf(r));
    b.(health := memory, transitions := b.transitions + Listed(t))
  }

  function Listed(t: Option<Transition>): seq<Transition> {
    if t.Some? then [t.value] else []
  }

  function Export(b: Books, r: ParseResult): Books {
    if r.Parsed? then b.(written := b.written + [r.frame]) else b
  }

  function Park(b: Books, item: Item): Books {
    b.(pending := b.pending[item.sequence := item.result])
  }

  /** The body of the inner loop. */
  function Process(c: HealthConfig, b: Books): Books
    requires b.expected in b.pending
  {
    var r := b.pending[b.expected];
    Export(Observe(c, Count(b, r), r), r).(pending := b.pending - {b.expected}, expected := b.expected + 1)
  }

  lemma ProcessShrinks(b: Books)
    requires b.expected in b.pending
    ensures (b.pending - {b.expected}).Keys == b.pending.Keys - {b.expected}
    ensures |b.pending - {b.expected}| < |b.pending|
  {
    assert (b.pending - {b.expected}).Keys == b.pending.Keys - {b.expected};
  }

  /** The inner loop: everything that has become contiguous is treated. */
  function Settle(c: HealthConfig, b: Books): Books
    decreases |b.pending|
  {
    if b.expected in b.pending then
      ProcessShrinks(b);
      Settle(c, Process(c, b))
    else b
  }

  /** The whole loop on the results in their order of arrival. */
  function Consume(c: HealthConfig, b: Books, arrivals: seq<Item>): (Outcome, Books)
    decreases |arrivals|
  {
    if arrivals == [] then (if b.pending == map[] then Complete else SequenceGap, b)
    else if arrivals[0].sequence in b.pending then (DuplicateSequence, b)
    else Consume(c, Settle(c, Park(b, arrivals[0])), arrivals[1..])
  }

  // ---------------------------------------------------------------- The loop itself

  class Writer {
    const health: StationHealthMonitor
    var decoded: nat
    var rejected: nat
    var written: seq<TelemetryFrame>
    var transitions: seq<Transition>

    constructor (health: StationHealthMonitor)
      ensures this.health == health
      ensures decoded == 0 && rejected == 0 && written == [] && transitions == []
    {
      this.health := health;
      decoded, rejected, written, transitions := 0, 0, [], [];
    }

    ghost function View(expected: nat, pending: map<nat, ParseResult>): Books
      reads this, health
    {
      Books(expected, pending, decoded, rejected, health.View(), transitions, written)
    }

    /** `arrivals` are the values popped from the decoded queue until it is closed and empty. */
    method WriterLoop(arrivals: seq<Item>) returns (o: Outcome, expectedSequence: nat, pending: map<nat, ParseResult>)
      requires ValidConfig(health.config)
      modifies this, health
      ensures (o, View(expectedSequence, pending)) == Consume(health.config, old(View(0, map[])), arrivals)
    {
      hide Record, ValidConfig, Process;
      expectedSequence, pending := 0, map[];
      ghost var c := health.config;
      ghost var all := Consume(c, View(0, map[]), arrivals);
      for i := 0 to |arrivals|
        invariant all == Consume(c, View(expectedSequence, pending), arrivals[i..])
      {
        var incoming := arrivals[i];
        assert arrivals[i..][0] == incoming && arrivals[i..][1..] == arrivals[i + 1..];
        if incoming.sequence in pending {
          return DuplicateSequence, expectedSequence, pending;
        }
        pending := pending[incoming.sequence := incoming.result];
        ghost var settled := Settle(c, View(expectedSequence, pending));
        while expectedSequence in pending
          invariant settled == Settle(c, View(expectedSequence, pending))
          decreases |pending|
        {
          ProcessShrinks(View(expectedSequence, pending));
          ghost var before := View(expectedSequence, pending);
          ghost var r := pending[expectedSequence];
          Handle(pending[expectedSequence]);
          pending := pending - {expectedSequence};
          expectedSequence := expectedSequence + 1;
          ProcessIs(c, before, View(expectedSequence, pending));
        }
      }
      assert arrivals[|arrivals|..] == [];
      if pending != map[] {
        return SequenceGap, expectedSequence, pending;
      }
      return Complete, expectedSequence, pending;
    }

    /** The two branches on the result's kind. */
    method Handle(r: ParseResult)
      requires ValidConfig(health.config)
      modifies this, health
      ensures forall e, p :: View(e, p) == Export(Observe(health.config, Count(old(View(e, p)), r), r), r)
    {
      hide Record, ValidConfig;
      var t: Option<Transition>;
      match r {
        case Parsed(frame) =>
          decoded := decoded + 1;
          t := health.RecordDecoded(frame);
          transitions := transitions + Listed(t);
          written := written + [frame];
        case Rejected(_) =>
          rejected := rejected + 1;
          t := health.RecordRejected();
          transitions := transitions + Listed(t);
      }
    }
  }

  lemma ProcessIs(c: HealthConfig, b: Books, next: Books)
    requires b.expected in b.pending
    requires var r := b.pending[b.expected];
             next == Export(Observe(c, Count(b, r), r), r).(pending := b.pending - {b.expected}, expected := b.expected + 1)
    ensures next == Process(c, b)
  {
    hide Record;
  }

  // ---------------------------------------------------------------- What the books should say

  /** The frames among the results. */
  function FramesOf(rs: seq<ParseResult>): (fs: seq<TelemetryFrame>)
    ensures |fs| <= |rs|
  {
    if rs == [] then []
    else
      var r := rs[|rs| - 1];
      FramesOf(rs[..|rs| - 1]) + (if r.Parsed? then [r.frame] else [])
  }

  function SamplesOf(rs: seq<ParseResult>): seq<Sample> {
    seq(|rs|, i requires 0 <= i < |rs| => SampleOf(rs[i]))
  }

  /** Every transition that a history of samples triggers. */
  function TransitionsOf(c: HealthConfig, h: seq<Sample>): seq<Transition> {
    if h == [] then []
    else TransitionsOf(c, h[..|h| - 1]) + Listed(TransitionAt(c, h, |h| - 1))
  }

  ghost predicate Counted(b: Books, rs: seq<ParseResult>) {
    b.decoded == |FramesOf(rs)| && b.rejected == |rs| - |FramesOf(rs)|
  }

  ghost predicate Observed(c: HealthConfig, b: Books, rs: seq<ParseResult>) {
    b.health == After(c, SamplesOf(rs)) && b.transitions == TransitionsOf(c, SamplesOf(rs))
  }

  ghost predicate Exported(b: Books, rs: seq<ParseResult>) { b.written == FramesOf(rs) }

  /** The counters, the health state, its transitions and the export are those of `rs`, in order. */
  ghost predicate Reflects(c: HealthConfig, b: Books, rs: seq<ParseResult>) {
    Counted(b, rs) && Observed(c, b, rs) && Exported(b, rs)
  }

  lemma StartReflectsNothing(c: HealthConfig)
    ensures Reflects(c, START, [])
  {
  }

  lemma CountOne(b: Books, rs: seq<ParseResult>, r: ParseResult)
    requires Counted(b, rs)
    ensures Counted(Count(b, r), rs + [r])
  {
    assert (rs + [r])[..|rs|] == rs;
  }

  lemma ObserveOne(c: HealthConfig, b: Books, rs: seq<ParseResult>, r: ParseResult)
    requires Observed(c, b, rs)
    ensures Observed(c, Observe(c, b, r), rs + [r])
  {
    hide Record;
    var h := SamplesOf(rs);
    assert SamplesOf(rs + [r]) == h + [SampleOf(r)];
    assert (h + [SampleOf(r)])[..|h|] == h;
  }

  lemma ExportOne(b: Books, rs: seq<ParseResult>, r: ParseResult)
    requires Exported(b, rs)
    ensures Exported(Export(b, r), rs + [r])
  {
    assert (rs + [r])[..|rs|] == rs;
  }

  lemma ProcessReflects(c: HealthConfig, b: Books, rs: seq<ParseResult>)
    requires Reflects(c, b, rs) && b.expected in b.pending
    ensures Reflects(c, Process(c, b), rs + [b.pending[b.expected]])
  {
    hide Record, FramesOf, SamplesOf, TransitionsOf, After;
    var r := b.pending[b.expected];
    CountOne(b, rs, r);
    ObserveOne(c, Count(b, r), rs, r);
    ExportOne(Observe(c, Count(b, r), r), rs, r);
  }

  // ---------------------------------------------------------------- Sequence numbers

  /** The numbers below `n`, once each. */
  ghost function UpTo(n: nat): multiset<nat> {
    if n == 0 then multiset{} else UpTo(n - 1) + multiset{n - 1}
  }

  ghost function Sequences(items: seq<Item>): multiset<nat> {
    if items == [] then multiset{} else multiset{items[0].sequence} + Sequences(items[1..])
  }

  lemma {:induction n} UpToHas(n: nat, k: nat)
    ensures UpTo(n)[k] == if k < n then 1 else 0
  {
  }

  lemma {:induction n} UpToSize(n: nat)
    ensures |UpTo(n)| == n
  {
  }

  lemma {:induction false} SequencesSize(items: seq<Item>)
    ensures |Sequences(items)| == |items|
  {
    if items != [] {
      SequencesSize(items[1..]);
    }
  }

  lemma KeysWith(p: map<nat, ParseResult>, k: nat, r: ParseResult)
    requires k !in p
    ensures multiset(p[k := r].Keys) == multiset(p.Keys) + multiset{k}
  {
    assert p[k := r].Keys == p.Keys + {k};
  }

  lemma KeysWithout(p: map<nat, ParseResult>, k: nat)
    requires k in p
    ensures multiset(p.Keys) == multiset((p - {k}).Keys) + multiset{k}
  {
    assert (p - {k}).Keys == p.Keys - {k};
  }

  /** The numbers that have arrived: those treated and those parked. */
  ghost function Arrived(b: Books): multiset<nat> { UpTo(b.expected) + multiset(b.pending.Keys) }

  /** What is parked is what `rs` says. */
  ghost predicate Agrees(b: Books, rs: seq<ParseResult>) {
    forall k :: k in b.pending ==> k < |rs| && b.pending[k] == rs[k]
  }

  ghost predicate InOrder(c: HealthConfig, b: Books, rs: seq<ParseResult>) {
    b.expected <= |rs| && Reflects(c, b, rs[..b.expected]) && Agrees(b, rs)
  }

  lemma {:induction false} SettleKeeps(c: HealthConfig, b: Books, rs: seq<ParseResult>)
    requires InOrder(c, b, rs)
    ensures var n := Settle(c, b);
            InOrder(c, n, rs) && n.expected !in n.pending && Arrived(n) == Arrived(b)
    decreases |b.pending|
  {
    hide Reflects, Observe, Count, Export;
    if b.expected in b.pending {
      var n := Process(c, b);
      ProcessShrinks(b);
      ProcessReflects(c, b, rs[..b.expected]);
      assert rs[..b.expected] + [rs[b.expected]] == rs[..b.expected + 1];
      ProcessArrived(c, b);
      SettleKeeps(c, n, rs);
    }
  }

  lemma ProcessArrived(c: HealthConfig, b: Books)
    requires b.expected in b.pending
    ensures Arrived(Process(c, b)) == Arrived(b)
  {
    hide Observe, Count, Export;
    KeysWithout(b.pending, b.expected);
  }

  // ---------------------------------------------------------------- Any order of arrival

  ghost predicate AllAgree(arrivals: seq<Item>, rs: seq<ParseResult>) {
    forall i :: 0 <= i < |arrivals| ==>
                  arrivals[i].sequence < |rs| && arrivals[i].result == rs[arrivals[i].sequence]
  }

  lemma NothingParked(b: Books)
    requires b.expected !in b.pending
    ensures b.pending == map[] <==> Arrived(b) == UpTo(|Arrived(b)|)
  {
    var n := |Arrived(b)|;
    UpToSize(b.expected);
    UpToHas(b.expected, b.expected);
    UpToHas(n, b.expected);
    assert n == b.expected + |b.pending.Keys|;
    if b.pending == map[] {
      assert Arrived(b) == UpTo(b.expected);
    } else {
      assert |b.pending.Keys| > 0 by {
        assert b.pending.Keys != {};
      }
      assert Arrived(b)[b.expected] == 0;
    }
  }

  lemma {:induction false} ConsumeKeeps(c: HealthConfig, b: Books, arrivals: seq<Item>, rs: seq<ParseResult>)
    requires InOrder(c, b, rs) && AllAgree(arrivals, rs) && b.expected !in b.pending
    ensures var (o, n) := Consume(c, b, arrivals);
            && InOrder(c, n, rs)
            && (o == Complete ==> n.expected == |Arrived(b) + Sequences(arrivals)|)
    decreases |arrivals|
  {
    hide Reflects, Settle, UpTo, Arrived;
    var all := Arrived(b) + Sequences(arrivals);
    if arrivals == [] {
      assert all == Arrived(b);
      if b.pending == map[] {
        ArrivedAll(b);
      }
    } else if arrivals[0].sequence !in b.pending {
      var p := Park(b, arrivals[0]);
      ArrivedPark(b, arrivals[0]);
      ParkKeeps(c, b, arrivals[0], rs);
      SettleKeeps(c, p, rs);
      ConsumeKeeps(c, Settle(c, p), arrivals[1..], rs);
      assert all == Arrived(p) + Sequences(arrivals[1..]);
    }
  }

  lemma ArrivedAll(b: Books)
    requires b.pending == map[]
    ensures |Arrived(b)| == b.expected
  {
    assert Arrived(b) == UpTo(b.expected);
    UpToSize(b.expected);
  }

  lemma ArrivedPark(b: Books, item: Item)
    requires item.sequence !in b.pending
    ensures Arrived(Park(b, item)) == Arrived(b) + multiset{item.sequence}
  {
    KeysWith(b.pending, item.sequence, item.result);
  }

  lemma ParkKeeps(c: HealthConfig, b: Books, item: Item, rs: seq<ParseResult>)
    requires InOrder(c, b, rs) && item.sequence < |rs| && item.result == rs[item.sequence]
    ensures InOrder(c, Park(b, item), rs)
  {
    hide FramesOf, SamplesOf, TransitionsOf, After;
  }

  lemma RepeatIsNotUpTo(b: Books, arrivals: seq<Item>)
    requires arrivals != [] && arrivals[0].sequence in b.pending
    ensures var all := Arrived(b) + Sequences(arrivals); all != UpTo(|all|)
  {
    var all := Arrived(b) + Sequences(arrivals);
    UpToHas(|all|, arrivals[0].sequence);
    assert Arrived(b)[arrivals[0].sequence] >= 1;
    assert Sequences(arrivals)[arrivals[0].sequence] >= 1;
  }

  /**
   Whatever the order of arrival, what the writer has treated is a prefix of the results in
   sequence order; and it finishes without an error exactly when the numbers 0, 1, ... arrive
   once each, in which case it has treated them all.
   */
  lemma AnyArrivalOrder(c: HealthConfig, arrivals: seq<Item>, rs: seq<ParseResult>)
    requires AllAgree(arrivals, rs)
    ensures var (o, b) := Consume(c, START, arrivals);
            && b.expected <= |rs| && Reflects(c, b, rs[..b.expected])
            && (o == Complete <==> Sequences(arrivals) == UpTo(|arrivals|))
            && (o == Complete ==> b.expected == |arrivals|)
  {
    hide Reflects, Consume;
    StartReflectsNothing(c);
    assert rs[..0] == [];
    ConsumeKeeps(c, START, arrivals, rs);
    CompleteWhenAllCame(c, START, arrivals);
    assert Arrived(START) + Sequences(arrivals) == Sequences(arrivals);
    SequencesSize(arrivals);
  }

  // ---------------------------------------------------------------- Which of the two checks fires

  /**
   Number `k` comes when `seen` has come already: the writer calls it a duplicate if it came before
   and a smaller number is still missing, or if it came twice before.
   */
  ghost predicate Clashes(seen: multiset<nat>, k: nat) {
    (seen[k] >= 1 && exists m: nat :: m < k && seen[m] == 0) || seen[k] >= 2
  }

  lemma ParkedIsClash(b: Books, k: nat)
    requires b.expected !in b.pending
    ensures k in b.pending <==> Clashes(Arrived(b), k)
  {
    UpToHas(b.expected, k);
    UpToHas(b.expected, b.expected);
    assert Arrived(b)[b.expected] == 0;
    forall m: nat | m < k && Arrived(b)[m] == 0
      ensures b.expected <= m
    {
      UpToHas(b.expected, m);
    }
  }

  lemma {:induction false} SettleArrived(c: HealthConfig, b: Books)
    ensures var n := Settle(c, b); n.expected !in n.pending && Arrived(n) == Arrived(b)
    decreases |b.pending|
  {
    hide Process, Arrived;
    if b.expected in b.pending {
      ProcessShrinks(b);
      ProcessArrived(c, b);
      ProcessLeaves(c, b);
      SettleArrived(c, Process(c, b));
    }
  }

  lemma ProcessLeaves(c: HealthConfig, b: Books)
    requires b.expected in b.pending
    ensures Process(c, b).pending == b.pending - {b.expected}
  {
    hide Observe, Count;
  }

  lemma {:induction false} ClashIsReported(c: HealthConfig, b: Books, arrivals: seq<Item>)
    requires b.expected !in b.pending
    ensures Consume(c, b, arrivals).0 == DuplicateSequence
       <==> exists j :: 0 <= j < |arrivals| && Clashes(Arrived(b) + Sequences(arrivals[..j]), arrivals[j].sequence)
    decreases |arrivals|
  {
    hide Settle, UpTo, Arrived, Clashes, Park, Sequences;
    if arrivals != [] {
      var k, seen := arrivals[0].sequence, Arrived(b);
      ParkedIsClash(b, k);
      SeenBefore(seen, arrivals);
      if k in b.pending {
        assert Clashes(seen + Sequences(arrivals[..0]), arrivals[0].sequence);
      } else {
        var n := Settle(c, Park(b, arrivals[0]));
        ArrivedPark(b, arrivals[0]);
        SettleArrived(c, Park(b, arrivals[0]));
        ClashIsReported(c, n, arrivals[1..]);
        forall j | 0 <= j < |arrivals|
          ensures j > 0 ==> seen + Sequences(arrivals[..j]) == Arrived(n) + Sequences(arrivals[1..][..j - 1])
                            && arrivals[j] == arrivals[1..][j - 1]
        {
          if j > 0 {
            assert arrivals[..j][1..] == arrivals[1..][..j - 1];
            SequencesFront(seen, arrivals[..j]);
          }
        }
        ShiftClash(seen, Arrived(n), arrivals);
      }
    }
  }

  lemma SeenBefore(seen: multiset<nat>, arrivals: seq<Item>)
    ensures seen + Sequences(arrivals[..0]) == seen
  {
  }

  lemma SequencesFront(seen: multiset<nat>, items: seq<Item>)
    requires items != []
    ensures seen + Sequences(items) == (seen + multiset{items[0].sequence}) + Sequences(items[1..])
  {
  }

  lemma ShiftClash(seen: multiset<nat>, next: multiset<nat>, arrivals: seq<Item>)
    requires arrivals != [] && !Clashes(seen + Sequences(arrivals[..0]), arrivals[0].sequence)
    requires forall j :: 0 <= j < |arrivals| ==>
               j > 0 ==> seen + Sequences(arrivals[..j]) == next + Sequences(arrivals[1..][..j - 1])
                         && arrivals[j] == arrivals[1..][j - 1]
    ensures (exists j :: 0 <= j < |arrivals| && Clashes(seen + Sequences(arrivals[..j]), arrivals[j].sequence))
       <==> exists j :: 0 <= j < |arrivals[1..]| && Clashes(next + Sequences(arrivals[1..][..j]), arrivals[1..][j].sequence)
  {
    hide Clashes, Sequences;
    if j :| 0 <= j < |arrivals| && Clashes(seen + Sequences(arrivals[..j]), arrivals[j].sequence) {
      assert j > 0;
      assert Clashes(next + Sequences(arrivals[1..][..j - 1]), arrivals[1..][j - 1].sequence);
    }
    if j :| 0 <= j < |arrivals[1..]| && Clashes(next + Sequences(arrivals[1..][..j]), arrivals[1..][j].sequence) {
      assert arrivals[1..][..(j + 1) - 1] == arrivals[1..][..j];
      assert Clashes(seen + Sequences(arrivals[..j + 1]), arrivals[j + 1].sequence);
    }
  }

  /**
   For all arrivals: the loop completes iff the numbers 0, 1, ... come once each, reports a
   duplicate iff some arrival clashes with those before it, and reports a gap in all other cases.
   */
  lemma WhichCheckFires(c: HealthConfig, arrivals: seq<Item>)
    ensures var o := Consume(c, START, arrivals).0;
            && (o == Complete <==> Sequences(arrivals) == UpTo(|arrivals|))
            && (o == DuplicateSequence <==>
                exists j :: 0 <= j < |arrivals| && Clashes(Sequences(arrivals[..j]), arrivals[j].sequence))
  {
    hide Consume, Clashes, Sequences, UpTo;
    ClashIsReported(c, START, arrivals);
    NothingArrived();
    forall j | 0 <= j < |arrivals|
      ensures Arrived(START) + Sequences(arrivals[..j]) == Sequences(arrivals[..j])
    {
    }
    CompleteWhenAllCame(c, START, arrivals);
    assert Arrived(START) + Sequences(arrivals) == Sequences(arrivals);
    SequencesSize(arrivals);
  }

  lemma NothingArrived()
    ensures Arrived(START) == multiset{}
  {
  }

  lemma {:induction false} CompleteWhenAllCame(c: HealthConfig, b: Books, arrivals: seq<Item>)
    requires b.expected !in b.pending
    ensures var all := Arrived(b) + Sequences(arrivals);
            Consume(c, b, arrivals).0 == Complete <==> all == UpTo(|all|)
    decreases |arrivals|
  {
    hide Settle, UpTo, Arrived, Park;
    var all := Arrived(b) + Sequences(arrivals);
    if arrivals == [] {
      assert all == Arrived(b);
      NothingParked(b);
    } else if arrivals[0].sequence in b.pending {
      RepeatIsNotUpTo(b, arrivals);
    } else {
      var p := Park(b, arrivals[0]);
      ArrivedPark(b, arrivals[0]);
      SettleArrived(c, p);
      CompleteWhenAllCame(c, Settle(c, p), arrivals[1..]);
      assert all == Arrived(p) + Sequences(arrivals[1..]);
    }
  }
}
