/** The PIE queue of pie_packet_queue.cc (RFC 8033, section 4.2), with drop probabilities as reals. */
module PieQueue {
  import opened PacketQueues
  import opened Widths

  const DQ_COUNT_INVALID: nat := UINT32 - 1
  const T_UPDATE: nat := 30
  const DQ_THRESHOLD: nat := 16384

  /** The fields of `PIEPacketQueue` that change, and its parameters. */
  datatype Pie = Pie(qdelayRef: nat, maxBurst: nat, limits: Discipline, queue: seq<Packet>,
                     dropProb: real, burst: nat, qdelayOld: nat, qdelay: nat,
                     dqCount: nat, dqTstamp: nat, avgDqRate: nat, lastUpdate: nat)

  function New(qdelayRef: nat, maxBurst: nat, limits: Discipline, now: nat): Pie {
    Pie(qdelayRef, maxBurst, limits, [], 0.0, 0, 0, 0, DQ_COUNT_INVALID, 0, 0, now)
  }

  /** The cast from `uint32_t` to `int`. */
  function Int32(x: int): int {
    (x + 0x8000_0000) % UINT32 - 0x8000_0000
  }

  function Clamp(p: real): (r: real)
    ensures 0.0 <= r <= 1.0
  {
    if p < 0.0 then 0.0 else if p > 1.0 then 1.0 else p
  }

  /** The control step before it is added: scaled down while the probability is small. */
  function Step(dropProb: real, delay: nat, reference: nat, before: nat): real {
    var p := 0.125 * Int32(delay - reference) as real + 1.25 * Int32(delay - before) as real;
    if dropProb < 0.01 then p / 128.0 else if dropProb < 0.1 then p / 32.0 else p / 16.0
  }

  function DelayNow(s: Pie): nat {
    if s.avgDqRate > 0 then Bytes(s.queue) / s.avgDqRate else 0
  }

  /** One turn of the catch-up loop: the work of one timer period. */
  function Period(s: Pie): (r: Pie)
    ensures r.lastUpdate == s.lastUpdate + T_UPDATE && r.queue == s.queue
  {
    var before, delay := s.qdelay, DelayNow(s);
    var raw := s.dropProb + Step(s.dropProb, delay, s.qdelayRef, before);
    var idle := delay == 0 && before == 0 && !(delay == 0 && Bytes(s.queue) != 0) && raw <= 1.0;
    var prob := if idle then Clamp(raw) * 0.98 else Clamp(raw);
    var burst := if Int32(s.burst) > T_UPDATE then Int32(s.burst) - T_UPDATE else 0;
    Relax(s.(qdelayOld := before, qdelay := delay, dropProb := prob, burst := burst, lastUpdate := s.lastUpdate + T_UPDATE))
  }

  /** The end of congestion: the rate is forgotten and a new burst allowed. */
  function Relax(s: Pie): Pie {
    if s.dropProb == 0.0 && s.qdelay < s.qdelayRef / 2 && s.qdelayOld < s.qdelayRef / 2 && s.avgDqRate > 0
    then s.(dqCount := DQ_COUNT_INVALID, avgDqRate := 0, burst := s.maxBurst)
    else s
  }

  /** `calculate_drop_prob`: the periods missed since the last update. */
  function CatchUp(s: Pie, now: nat): Pie
    decreases now - s.lastUpdate
  {
    if now - s.lastUpdate <= T_UPDATE then s else CatchUp(Period(s), now)
  }

  // The catch-up loop is a periodic timer

  function Periods(s: Pie, n: nat): Pie
    decreases n
  {
    if n == 0 then s else Periods(Period(s), n - 1)
  }

  /** How often a timer of period 30 that last fired at `last` has fired before `now`. */
  function Fired(last: nat, now: nat): nat {
    if now <= last then 0 else (now - last - 1) / T_UPDATE
  }

  /** The loop does exactly the work of the timer, ends within one period of now, and leaves the queue alone. */
  lemma {:induction false} CatchUpIsTimer(s: Pie, now: nat)
    requires s.lastUpdate <= now
    ensures CatchUp(s, now) == Periods(s, Fired(s.lastUpdate, now))
    ensures var r := CatchUp(s, now);
            r.lastUpdate <= now <= r.lastUpdate + T_UPDATE && r.lastUpdate == s.lastUpdate + T_UPDATE * Fired(s.lastUpdate, now)
    decreases now - s.lastUpdate
  {
    hide Step, DelayNow;
    if now - s.lastUpdate > T_UPDATE {
      CatchUpIsTimer(Period(s), now);
    }
  }

  /** Waking up in between changes nothing: with the queue unchanged, catching up at `t1` and again at `t2`
      is catching up at `t2`. */
  lemma {:induction false} CatchUpTwice(s: Pie, t1: nat, t2: nat)
    requires t1 <= t2
    ensures CatchUp(CatchUp(s, t1), t2) == CatchUp(s, t2)
    decreases t1 - s.lastUpdate
  {
    hide Step, DelayNow;
    if t1 - s.lastUpdate > T_UPDATE {
      CatchUpTwice(Period(s), t1, t2);
    }
  }

  predicate Probability(p: real) {
    0.0 <= p <= 1.0
  }

  lemma {:induction false} CatchUpKeeps(s: Pie, now: nat)
    requires Probability(s.dropProb)
    ensures var r := CatchUp(s, now);
            && Probability(r.dropProb) && r.queue == s.queue && r.limits == s.limits
            && r.qdelayRef == s.qdelayRef && r.maxBurst == s.maxBurst
    decreases now - s.lastUpdate
  {
    hide Step, DelayNow;
    if now - s.lastUpdate > T_UPDATE {
      CatchUpKeeps(Period(s), now);
    }
  }

  // What the control law does

  /** With delays that fit an `int` the probability moves the right way: not down while the delay is at least the reference and
      not falling, not up while it is at most the reference and not rising. */
  lemma PeriodPushes(s: Pie)
    requires Probability(s.dropProb) && DelayNow(s) < UINT32 / 2 && s.qdelay < UINT32 / 2 && s.qdelayRef < UINT32 / 2
    ensures DelayNow(s) >= s.qdelayRef > 0 && DelayNow(s) >= s.qdelay ==> Period(s).dropProb >= s.dropProb
    ensures DelayNow(s) <= s.qdelayRef && DelayNow(s) <= s.qdelay ==> Period(s).dropProb <= s.dropProb
  {
    var delay := DelayNow(s);
    Int32Small(delay - s.qdelayRef);
    Int32Small(delay - s.qdelay);
    hide Int32, DelayNow;
    StepSign(s.dropProb, delay, s.qdelayRef, s.qdelay);
    hide Step;
  }

  lemma Int32Small(x: int)
    requires -0x8000_0000 <= x < 0x8000_0000
    ensures Int32(x) == x
  {}

  lemma StepSign(p: real, delay: nat, reference: nat, before: nat)
    requires Int32(delay - reference) == delay - reference && Int32(delay - before) == delay - before
    ensures delay >= reference && delay >= before ==> Step(p, delay, reference, before) >= 0.0
    ensures delay <= reference && delay <= before ==> Step(p, delay, reference, before) <= 0.0
    ensures delay == 0 && reference >= 1 ==> Step(p, delay, reference, before) <= -1.0 / 1024.0
  {
    hide Int32;
  }

  /** An empty queue forgets: each period takes at least 1/1024 off the drop probability, so after 1024 of them it is zero. */
  lemma {:induction false} EmptyForgets(s: Pie, n: nat, k: nat)
    requires s.queue == [] && 1 <= s.qdelayRef < UINT32 / 2 && s.qdelay < UINT32 / 2
    requires Probability(s.dropProb) && s.dropProb <= k as real / 1024.0 && n >= k
    ensures Periods(s, n).dropProb == 0.0
    decreases n
  {
    if n == 0 {
      assert Periods(s, 0) == s;
    } else {
      IdlePeriod(s);
      hide Period;
      var t := Period(s);
      var j := if k > 0 then k - 1 else 0;
      EmptyForgets(t, n - 1, j);
    }
  }

  lemma IdlePeriod(s: Pie)
    requires s.queue == [] && 1 <= s.qdelayRef < UINT32 / 2 && s.qdelay < UINT32 / 2 && Probability(s.dropProb)
    ensures var t := Period(s);
            && t.queue == [] && t.qdelay == 0 && t.qdelayRef == s.qdelayRef && Probability(t.dropProb)
            && t.dropProb <= (if s.dropProb <= 1.0 / 1024.0 then 0.0 else s.dropProb - 1.0 / 1024.0)
  {
    assert Bytes(s.queue) == 0;
    assert DelayNow(s) == 0;
    Int32Small(0 - s.qdelayRef);
    Int32Small(0 - s.qdelay);
    hide Int32, DelayNow;
    StepSign(s.dropProb, 0, s.qdelayRef, s.qdelay);
    hide Step;
  }

  // Operations

  /** `drop_early`; `random` is the draw in [0, 1). */
  predicate DropEarly(s: Pie, random: real) {
    && s.burst == 0
    && !(s.qdelayOld < s.qdelayRef / 2 && s.dropProb < 0.2)
    && Bytes(s.queue) >= 2 * PACKET_SIZE
    && random < s.dropProb
  }

  /** `enqueue`. */
  function EnqueueAt(s: Pie, p: Packet, now: nat, random: real): Pie {
    var c := CatchUp(s, now);
    if !GoodWith(c.limits, Bytes(c.queue) + |p.contents|, |c.queue| + 1) || DropEarly(c, random) then c
    else c.(queue := c.queue + [p])
  }

  /** An eighth of the old rate gives way to the sample. */
  function Smoothed(rate: nat, sample: nat): nat {
    if rate == 0 then sample else rate - rate / 8 + sample / 8
  }

  /** A measurement over `dtime` milliseconds ends, and the next one starts if the queue is still long. */
  function EndMeasurement(s: Pie, dtime: nat, now32: nat): Pie
    requires dtime > 0
  {
    var t := s.(avgDqRate := Smoothed(s.avgDqRate, s.dqCount / dtime), burst := if s.burst > dtime then s.burst - dtime else 0);
    if Bytes(s.queue) < DQ_THRESHOLD then t.(dqCount := DQ_COUNT_INVALID) else t.(dqCount := 0, dqTstamp := now32)
  }

  /** The departure-rate measurement of `dequeue`, after a packet of `size` bytes has left. */
  function Measure(s: Pie, size: nat, now: nat): Pie {
    var now32 := now % UINT32;
    var b := if Bytes(s.queue) >= DQ_THRESHOLD && s.dqCount == DQ_COUNT_INVALID then s.(dqTstamp := now32, dqCount := 0) else s;
    if b.dqCount == DQ_COUNT_INVALID then b
    else
      var c := b.(dqCount := (b.dqCount + size) % UINT32);
      var dtime := (now32 - b.dqTstamp) % UINT32;
      if c.dqCount > DQ_THRESHOLD && dtime > 0 then EndMeasurement(c, dtime, now32) else c
  }

  function Pop(s: Pie, now: nat): Pie
    requires s.queue != []
  {
    Measure(s.(queue := s.queue[1..]), |s.queue[0].contents|, now)
  }

  /** `dequeue`: the missed periods are caught up only after the packet has left, and up to a second reading of the clock. */
  function DequeueAt(s: Pie, now: nat, later: nat): Pie
    requires s.queue != []
  {
    CatchUp(Pop(s, now), later)
  }

  // Against a queue driven by a timer

  /** What a queue with a real timer does: every period that has come is worked off before the packet is touched. */
  function TimedEnqueue(s: Pie, p: Packet, now: nat, random: real): Pie {
    EnqueueAt(Periods(s, Fired(s.lastUpdate, now)), p, now, random)
  }

  function TimedDequeue(s: Pie, now: nat, later: nat): Pie
    requires s.queue != []
  {
    PeriodsKeepQueue(s, Fired(s.lastUpdate, now));
    CatchUp(Pop(Periods(s, Fired(s.lastUpdate, now)), now), later)
  }

  lemma {:induction false} PeriodsKeepQueue(s: Pie, n: nat)
    ensures Periods(s, n).queue == s.queue
    decreases n
  {
    hide Step, DelayNow;
    if n > 0 {
      PeriodsKeepQueue(Period(s), n - 1);
    }
  }

  /** An arrival finds exactly the state a timer would have left. */
  lemma EnqueueIsTimed(s: Pie, p: Packet, now: nat, random: real)
    requires s.lastUpdate <= now
    ensures EnqueueAt(s, p, now, random) == TimedEnqueue(s, p, now, random)
  {
    hide Period;
    CatchUpIsTimer(s, now);
    CatchUpTwice(s, now, now);
  }

  /** A departure does so if no period is due at its time... */
  lemma DequeueIsTimed(s: Pie, now: nat, later: nat)
    requires s.queue != [] && s.lastUpdate <= now <= s.lastUpdate + T_UPDATE
    ensures DequeueAt(s, now, later) == TimedDequeue(s, now, later)
  {
    assert Periods(s, 0) == s;
  }

  lemma MeasureKeepsClock(s: Pie, size: nat, now: nat)
    ensures Measure(s, size, now).lastUpdate == s.lastUpdate && Measure(s, size, now).dropProb == s.dropProb
    ensures var r := Measure(s, size, now); r.queue == s.queue && r.limits == s.limits && r.qdelayRef == s.qdelayRef && r.qdelay == s.qdelay
    ensures Bytes(s.queue) < DQ_THRESHOLD && s.dqCount == DQ_COUNT_INVALID ==> Measure(s, size, now) == s
  {}

  /** ... and, whenever one is due, not for a queue that holds one packet and has measured a rate: a timer finds a delay
      before the packet leaves and `dequeue` finds none after. */
  lemma DequeueIsNotTimed(s: Pie, now: nat)
    requires s.qdelayRef == 1 && s.avgDqRate > 0 && s.dqCount == DQ_COUNT_INVALID
    requires |s.queue| == 1 && |s.queue[0].contents| >= s.avgDqRate && now > s.lastUpdate + T_UPDATE
    ensures DequeueAt(s, now, now).qdelay == 0 < TimedDequeue(s, now, now).qdelay
  {
    hide Measure, Period;
    var size := |s.queue[0].contents|;
    assert s.queue[1..] == [] && Bytes(s.queue[1..]) == 0 && Bytes(s.queue) == size;
    var n := Fired(s.lastUpdate, now);
    CatchUpIsTimer(s, now);
    DelayAfter(s, n);
    PeriodsKeepQueue(s, n);
    var t := Periods(s, n);
    MeasureKeepsClock(t.(queue := t.queue[1..]), size, now);
    NothingDue(Pop(t, now), now);
    MeasureKeepsClock(s.(queue := []), size, now);
    var popped := Pop(s, now);
    assert popped == s.(queue := []);
    CatchUpIsTimer(popped, now);
    DelayAfter(popped, n);
    Positive(size, s.avgDqRate);
  }

  lemma Positive(a: nat, b: nat)
    requires a >= b > 0
    ensures a / b > 0
  {}

  lemma NothingDue(s: Pie, now: nat)
    requires now <= s.lastUpdate + T_UPDATE
    ensures CatchUp(s, now) == s
  {}

  /** With a reference delay below two the measured rate is never reset, so after any number of periods the delay is
      the bytes queued over that rate. */
  lemma {:induction false} DelayAfter(s: Pie, n: nat)
    requires n > 0 && s.qdelayRef < 2 && s.avgDqRate > 0
    ensures Periods(s, n).qdelay == Bytes(s.queue) / s.avgDqRate
    decreases n
  {
    hide Step;
    var t := Period(s);
    assert t.queue == s.queue && t.avgDqRate == s.avgDqRate && t.qdelayRef == s.qdelayRef;
    assert t.qdelay == Bytes(s.queue) / s.avgDqRate;
    if n > 1 {
      DelayAfter(t, n - 1);
    } else {
      assert Periods(t, 0) == t;
    }
  }

  // Whole runs

  /** `dequeue` reads the clock twice. */
  datatype Event = Put(now: nat, p: Packet, random: real) | Take(now: nat, later: nat)

  function End(e: Event): nat {
    if e.Put? then e.now else e.later
  }

  function Happen(s: Pie, e: Event): Pie {
    match e
    case Put(now, p, random) => EnqueueAt(s, p, now, random)
    case Take(now, later) => if s.queue == [] then s else DequeueAt(s, now, later)
  }

  function Run(s: Pie, es: seq<Event>): Pie
    decreases |es|
  {
    if es == [] then s else Run(Happen(s, es[0]), es[1..])
  }

  predicate Valid(s: Pie) {
    Probability(s.dropProb) && s.limits.DropTail? && Good(s.limits, s.queue)
  }

  predicate Clocked(s: Pie, es: seq<Event>) {
    && (forall i | 0 <= i < |es| :: s.lastUpdate <= es[i].now <= End(es[i]))
    && (forall i, j | 0 <= i < j < |es| :: End(es[i]) <= es[j].now)
  }

  lemma HappenValid(s: Pie, e: Event)
    requires Valid(s) && s.lastUpdate <= e.now <= End(e)
    ensures Valid(Happen(s, e)) && Happen(s, e).lastUpdate <= End(e)
  {
    hide CatchUp;
    match e
    case Put(now, p, random) =>
      CatchUpKeeps(s, now);
      CatchUpIsTimer(s, now);
      BytesSnoc(s.queue, p);
    case Take(now, later) =>
      if s.queue != [] {
        MeasureKeepsClock(s.(queue := s.queue[1..]), |s.queue[0].contents|, now);
        var popped := Pop(s, now);
        CatchUpKeeps(popped, later);
        CatchUpIsTimer(popped, later);
      }
  }

  /** In every run the drop probability is one, the queue is within its limits and the updates are never ahead of the clock. */
  lemma {:induction false} RunValid(s: Pie, es: seq<Event>)
    requires Valid(s) && Clocked(s, es)
    ensures Valid(Run(s, es)) && (es != [] ==> Run(s, es).lastUpdate <= End(es[|es| - 1]))
    decreases |es|
  {
    if es != [] {
      hide Happen, Valid;
      HappenValid(s, es[0]);
      var t, rest := Happen(s, es[0]), es[1..];
      assert forall i | 0 <= i < |rest| :: rest[i] == es[i + 1];
      assert Clocked(t, rest);
      RunValid(t, rest);
      if rest == [] {
        assert Run(t, rest) == t;
      } else {
        assert rest[|rest| - 1] == es[|es| - 1];
      }
    }
  }

  // When departures are timed, over the states that occur

  /** Packets that a link lets through, and draws in [0, 1). */
  predicate Realistic(es: seq<Event>) {
    forall e | e in es && e.Put? :: 1 <= |e.p.contents| <= PACKET_SIZE && 0.0 <= e.random < 1.0
  }

  predicate ReachedBy(s: Pie, now: nat, qdelayRef: nat, maxBurst: nat, limits: Discipline, start: nat, es: seq<Event>) {
    && qdelayRef > 0 && maxBurst > 0 && limits.DropTail? && (limits.packetLimit != 0 || limits.byteLimit != 0)
    && Clocked(New(qdelayRef, maxBurst, limits, start), es) && Realistic(es) && (forall e | e in es :: End(e) <= now)
    && s == Run(New(qdelayRef, maxBurst, limits, start), es)
  }

  /** A state that some queue is in at `now`. */
  ghost predicate Reached(s: Pie, now: nat) {
    exists qdelayRef, maxBurst, limits, start, es :: ReachedBy(s, now, qdelayRef, maxBurst, limits, start, es)
  }

  /** The comment in the source, that nothing happened to the queue since the last update, is true of departures
      at `now` for every queue that can exist exactly when no period is due. */
  lemma DequeueTimedExactly(last: nat, now: nat)
    requires last <= now
    ensures now <= last + T_UPDATE <==>
            forall s: Pie, later: nat | Reached(s, now) && s.queue != [] && s.lastUpdate == last && now <= later ::
              DequeueAt(s, now, later) == TimedDequeue(s, now, later)
  {
    hide DequeueAt, TimedDequeue, Reached;
    if now <= last + T_UPDATE {
      forall s: Pie, later: nat | Reached(s, now) && s.queue != [] && s.lastUpdate == last && now <= later
        ensures DequeueAt(s, now, later) == TimedDequeue(s, now, later)
      {
        DequeueIsTimed(s, now, later);
      }
    } else {
      DrainedReached(last, now);
      hide Drained;
      assert Drained(last).lastUpdate == last && Drained(last).queue != [] by { DrainedFails(last, now); }
      DrainedFails(last, now);
    }
  }

  /** A packet of the largest size. */
  function Bulk(): Packet {
    Packet(seq(PACKET_SIZE, _ => ' '), 0)
  }

  function Bulks(n: nat): seq<Packet> {
    seq(n, _ => Bulk())
  }

  lemma {:induction false} BulkBytes(n: nat)
    ensures Bytes(Bulks(n)) == n * PACKET_SIZE
  {
    hide Bulk;
    if n > 0 {
      assert Bulks(n)[1..] == Bulks(n - 1) && Bulks(n)[0] == Bulk();
      assert |Bulk().contents| == PACKET_SIZE by { BulkSize(); }
      BulkBytes(n - 1);
    }
  }

  lemma BulkSize()
    ensures |Bulk().contents| == PACKET_SIZE
  {}

  const BURST: Discipline := DropTail(12, 0)

  /** A queue that started at `last` and holds `n` such packets. */
  function Loaded(last: nat, n: nat): Pie {
    New(1, 1, BURST, last).(queue := Bulks(n))
  }

  /** The same while `taken` of them have left since the measurement began. */
  function Draining(last: nat, n: nat, taken: nat): Pie {
    Loaded(last, n).(dqCount := taken * PACKET_SIZE, dqTstamp := last % UINT32)
  }

  /** The same when all but one have left within 30 milliseconds: 16544 bytes, or 551 a millisecond. */
  function Drained(last: nat): Pie {
    Loaded(last, 1).(avgDqRate := 551, dqTstamp := last % UINT32)
  }

  function Puts(last: nat, n: nat): seq<Event> {
    seq(n, _ => Put(last, Bulk(), 0.5))
  }

  function Takes(at: nat, n: nat): seq<Event> {
    seq(n, _ => Take(at, at))
  }

  lemma {:induction false} RunConcat(s: Pie, a: seq<Event>, b: seq<Event>)
    ensures Run(s, a + b) == Run(Run(s, a), b)
    decreases |a|
  {
    hide Happen;
    if a == [] {
      assert a + b == b;
    } else {
      assert (a + b)[0] == a[0] && (a + b)[1..] == a[1..] + b;
      RunConcat(Happen(s, a[0]), a[1..], b);
    }
  }

  lemma OnePut(last: nat, n: nat)
    requires n < 12
    ensures Happen(Loaded(last, n), Put(last, Bulk(), 0.5)) == Loaded(last, n + 1)
  {
    hide Bulk, Bytes, CatchUp;
    NothingDue(Loaded(last, n), last);
    assert Bulks(n) + [Bulk()] == Bulks(n + 1);
  }

  lemma {:induction false} AllPut(last: nat, n: nat, k: nat)
    requires n + k <= 12
    ensures Run(Loaded(last, n), Puts(last, k)) == Loaded(last, n + k)
    decreases k
  {
    hide Happen, Bulk, Loaded;
    if k > 0 {
      OnePut(last, n);
      assert Puts(last, k)[1..] == Puts(last, k - 1);
      AllPut(last, n + 1, k - 1);
    }
  }

  lemma AfterPop(n: nat)
    requires n > 0
    ensures |Bulks(n)| == n && Bulks(n)[1..] == Bulks(n - 1) && Bytes(Bulks(n - 1)) == (n - 1) * PACKET_SIZE && |Bulks(n)[0].contents| == PACKET_SIZE
  {
    hide Bulk, Bytes;
    BulkSize();
    BulkBytes(n - 1);
  }

  /** The first packet leaves and the measurement begins. */
  lemma FirstTake(last: nat)
    ensures Happen(Loaded(last, 12), Take(last, last)) == Draining(last, 11, 1)
  {
    hide Bulk, Bytes, CatchUp, EndMeasurement, Bulks;
    AfterPop(12);
    NothingDue(Draining(last, 11, 1), last);
  }

  /** Up to ten packets are not enough bytes for it to end. */
  lemma OneTake(last: nat, n: nat, taken: nat)
    requires n > 0 && 1 <= taken <= 9
    ensures Happen(Draining(last, n, taken), Take(last + T_UPDATE, last + T_UPDATE)) == Draining(last, n - 1, taken + 1)
  {
    hide Bulk, Bytes, CatchUp, EndMeasurement, Bulks;
    AfterPop(n);
    NothingDue(Draining(last, n - 1, taken + 1), last + T_UPDATE);
  }

  lemma {:induction false} MostTaken(last: nat, taken: nat)
    requires 1 <= taken <= 10
    ensures Run(Draining(last, 12 - taken, taken), Takes(last + T_UPDATE, 10 - taken)) == Draining(last, 2, 10)
    decreases 10 - taken
  {
    hide Happen, Draining;
    if taken < 10 {
      OneTake(last, 12 - taken, taken);
      assert Takes(last + T_UPDATE, 10 - taken)[1..] == Takes(last + T_UPDATE, 9 - taken);
      MostTaken(last, taken + 1);
    }
  }

  lemma ElapsedTime(last: nat)
    ensures ((last + T_UPDATE) % UINT32 - last % UINT32) % UINT32 == T_UPDATE
  {}

  /** The eleventh is, and the queue is no longer long enough for another. */
  lemma LastTake(last: nat)
    ensures Happen(Draining(last, 2, 10), Take(last + T_UPDATE, last + T_UPDATE)) == Drained(last)
  {
    hide Bulk, Bytes, CatchUp, Bulks;
    AfterPop(2);
    ElapsedTime(last);
    NothingDue(Drained(last), last + T_UPDATE);
  }

  /** Twelve packets come at once, the first leaves at once and ten more thirty milliseconds later. */
  function BurstEvents(last: nat): seq<Event> {
    (Puts(last, 12) + Takes(last, 1)) + (Takes(last + T_UPDATE, 9) + Takes(last + T_UPDATE, 1))
  }

  lemma BurstRuns(last: nat)
    ensures Run(New(1, 1, BURST, last), BurstEvents(last)) == Drained(last)
  {
    hide Happen, Draining, Drained, Puts, Bulk;
    var start, at := New(1, 1, BURST, last), last + T_UPDATE;
    assert start == Loaded(last, 0);
    AllPut(last, 0, 12);
    OneEvent(Loaded(last, 12), Take(last, last), Takes(last, 1));
    FirstTake(last);
    RunConcat(start, Puts(last, 12), Takes(last, 1));
    MostTaken(last, 1);
    LastTake(last);
    OneEvent(Draining(last, 2, 10), Take(at, at), Takes(at, 1));
    hide Takes, Loaded, Run;
    RunConcat(Draining(last, 11, 1), Takes(at, 9), Takes(at, 1));
    RunConcat(start, Puts(last, 12) + Takes(last, 1), Takes(at, 9) + Takes(at, 1));
  }

  lemma OneEvent(s: Pie, e: Event, es: seq<Event>)
    requires es == [e]
    ensures Run(s, es) == Happen(s, e)
  {
    hide Happen;
    assert es[1..] == [];
  }

  lemma BurstClocked(last: nat, now: nat)
    requires now > last + T_UPDATE
    ensures var es := BurstEvents(last);
            Clocked(New(1, 1, BURST, last), es) && Realistic(es) && forall e | e in es :: End(e) <= now
  {
    hide Bulk;
    BulkSize();
    var es := BurstEvents(last);
    assert |es| == 23;
    assert forall i | 0 <= i < 12 :: es[i] == Put(last, Bulk(), 0.5);
    assert es[12] == Take(last, last);
    assert forall i | 13 <= i < 23 :: es[i] == Take(last + T_UPDATE, last + T_UPDATE);
  }

  lemma DrainedReached(last: nat, now: nat)
    requires now > last + T_UPDATE
    ensures Reached(Drained(last), now)
  {
    hide BurstEvents, Clocked, Realistic, Run, Drained;
    BurstRuns(last);
    BurstClocked(last, now);
    assert ReachedBy(Drained(last), now, 1, 1, BURST, last, BurstEvents(last));
  }

  lemma DrainedFails(last: nat, now: nat)
    requires now > last + T_UPDATE
    ensures var s := Drained(last);
            s.queue != [] && s.lastUpdate == last && DequeueAt(s, now, now).qdelay == 0 < TimedDequeue(s, now, now).qdelay
  {
    hide Bulk, DequeueAt, TimedDequeue;
    BulkSize();
    DequeueIsNotTimed(Drained(last), now);
  }

  /** A packet that fits is refused only past the burst allowance, with at least two packets' worth of bytes queued and
      a probability above the draw that is at least 0.2 unless the delay was already half the reference. */
  lemma EarlyDropsOnlyWhenLoaded(s: Pie, p: Packet, now: nat, random: real)
    requires Valid(s) && 0.0 <= random
    requires Good(s.limits, s.queue + [p]) && EnqueueAt(s, p, now, random).queue == s.queue
    ensures var c := CatchUp(s, now);
            && c.burst == 0 && Bytes(s.queue) >= 3008 && random < c.dropProb
            && (c.dropProb >= 0.2 || c.qdelayOld >= s.qdelayRef / 2)
  {
    hide CatchUp;
    CatchUpKeeps(s, now);
    BytesSnoc(s.queue, p);
    assert |s.queue + [p]| != |s.queue|;
  }

  // The class

  class PIEPacketQueue {
    const qdelayRef: nat
    const maxBurst: nat
    const base: PacketQueue
    var dropProb: real
    var burstAllowance: nat
    var qdelayOld: nat
    var currentQdelay: nat
    var dqCount: nat
    var dqTstamp: nat
    var avgDqRate: nat
    var lastUpdate: nat

    function View(): Pie
      reads this, base
    {
      Pie(qdelayRef, maxBurst, base.discipline, base.internalQueue, dropProb, burstAllowance, qdelayOld, currentQdelay,
          dqCount, dqTstamp, avgDqRate, lastUpdate)
    }

    ghost predicate Ok()
      reads this, base
    {
      base.Valid() && Valid(View())
    }

    /** The constructor throws unless `qdelay_ref`, `max_burst` and a limit are given. */
    constructor (qdelayRef: nat, maxBurst: nat, packets: nat, bytes: nat, now: nat)
      requires qdelayRef != 0 && maxBurst != 0 && (packets != 0 || bytes != 0)
      ensures Ok() && View() == New(qdelayRef, maxBurst, DropTail(packets, bytes), now) && fresh(base)
    {
      this.qdelayRef, this.maxBurst := qdelayRef, maxBurst;
      dropProb, burstAllowance, qdelayOld, currentQdelay := 0.0, 0, 0, 0;
      dqCount, dqTstamp, avgDqRate, lastUpdate := DQ_COUNT_INVALID, 0, 0, now;
      base := new PacketQueue(DropTail(packets, bytes));
    }

    /** `calculate_drop_prob`. */
    method CalculateDropProb(now: nat)
      requires base.Valid() && lastUpdate <= now
      modifies this
      ensures View() == CatchUp(old(View()), now) && base.Valid() && lastUpdate <= now
    {
      hide Period;
      ghost var target := CatchUp(View(), now);
      while now - lastUpdate > T_UPDATE
        invariant base.Valid() && lastUpdate <= now
        invariant CatchUp(View(), now) == target
        decreases now - lastUpdate
      {
        OnePeriod();
      }
    }

    /** One turn of its loop. */
    method OnePeriod()
      requires base.Valid()
      modifies this
      ensures View() == Period(old(View())) && base.Valid() && lastUpdate == old(lastUpdate) + T_UPDATE
    {
      hide Bytes, Good, Step, Int32, Relax, Clamp;
      qdelayOld := currentQdelay;
      if avgDqRate > 0 {
        currentQdelay := base.queueSizeInBytes / avgDqRate;
      } else {
        currentQdelay := 0;
      }
      UpdateProbability();
      var burst := Int32(burstAllowance) - T_UPDATE;
      burstAllowance := if burst > 0 then burst else 0;
      lastUpdate := lastUpdate + T_UPDATE;
      RelaxInPlace();
    }

    method RelaxInPlace()
      modifies this`dqCount, this`avgDqRate, this`burstAllowance
      ensures View() == Relax(old(View()))
    {
      if dropProb == 0.0 && currentQdelay < qdelayRef / 2 && qdelayOld < qdelayRef / 2 && avgDqRate > 0 {
        dqCount := DQ_COUNT_INVALID;
        avgDqRate := 0;
        burstAllowance := maxBurst;
      }
    }

    method UpdateProbability()
      requires base.Valid()
      modifies this`dropProb
      ensures var raw := old(dropProb) + Step(old(dropProb), currentQdelay, qdelayRef, qdelayOld);
              var idle := currentQdelay == 0 && qdelayOld == 0 && !(currentQdelay == 0 && base.queueSizeInBytes != 0) && raw <= 1.0;
              dropProb == if idle then Clamp(raw) * 0.98 else Clamp(raw)
    {
      hide Step;
      var updateProb := !(currentQdelay == 0 && base.queueSizeInBytes != 0);
      dropProb := dropProb + Step(dropProb, currentQdelay, qdelayRef, qdelayOld);
      if dropProb < 0.0 {
        dropProb := 0.0;
      } else if dropProb > 1.0 {
        dropProb := 1.0;
        updateProb := false;
      }
      if currentQdelay == 0 && qdelayOld == 0 && updateProb {
        dropProb := dropProb * 0.98;
      }
    }

    /** `drop_early`. */
    method DropEarlyNow(random: real) returns (drop: bool)
      requires base.Valid()
      ensures drop <==> DropEarly(View(), random)
    {
      if burstAllowance > 0 {
        return false;
      }
      if qdelayOld < qdelayRef / 2 && dropProb < 0.2 {
        return false;
      }
      if base.queueSizeInBytes < 2 * PACKET_SIZE {
        return false;
      }
      return random < dropProb;
    }

    /** `enqueue`. */
    method EnqueuePacket(p: Packet, now: nat, random: real)
      requires Ok() && lastUpdate <= now
      modifies this, base
      ensures Ok() && View() == EnqueueAt(old(View()), p, now, random) && lastUpdate <= now
    {
      hide CatchUp;
      CatchUpKeeps(View(), now);
      CalculateDropProb(now);
      BytesSnoc(base.internalQueue, p);
      if !GoodWith(base.discipline, base.queueSizeInBytes + |p.contents|, base.queueSizeInPackets + 1) {
        return;
      }
      var drop := DropEarlyNow(random);
      if !drop {
        base.Accept(p);
      }
      assert base.IsGood();
    }

    /** `dequeue`, with its two readings of the clock. */
    method DequeuePacket(now: nat, later: nat) returns (p: Packet)
      requires Ok() && lastUpdate <= now <= later && base.internalQueue != []
      modifies this, base
      ensures Ok() && View() == DequeueAt(old(View()), now, later) && p == old(base.internalQueue)[0] && lastUpdate <= later
    {
      hide CatchUp;
      var ok;
      ok, p := base.Dequeue();
      MeasureKeepsClock(View(), |p.contents|, now);
      MeasureDeparture(|p.contents|, now);
      CatchUpKeeps(View(), later);
      CalculateDropProb(later);
    }

    method MeasureDeparture(size: nat, now: nat)
      requires base.Valid()
      modifies this`dqTstamp, this`dqCount, this`avgDqRate, this`burstAllowance
      ensures View() == Measure(old(View()), size, now)
    {
      hide Bytes, Good, EndMeasurement;
      var now32 := now % UINT32;
      if base.queueSizeInBytes >= DQ_THRESHOLD && dqCount == DQ_COUNT_INVALID {
        dqTstamp := now32;
        dqCount := 0;
      }
      if dqCount != DQ_COUNT_INVALID {
        dqCount := (dqCount + size) % UINT32;
        var dtime := (now32 - dqTstamp) % UINT32;
        if dqCount > DQ_THRESHOLD && dtime > 0 {
          EndMeasurementInPlace(dtime, now32);
        }
      }
    }

    method EndMeasurementInPlace(dtime: nat, now32: nat)
      requires base.Valid() && dtime > 0
      modifies this`dqTstamp, this`dqCount, this`avgDqRate, this`burstAllowance
      ensures View() == EndMeasurement(old(View()), dtime, now32)
    {
      hide Bytes, Good, Smoothed;
      avgDqRate := Smoothed(avgDqRate, dqCount / dtime);
      if base.queueSizeInBytes < DQ_THRESHOLD {
        dqCount := DQ_COUNT_INVALID;
      } else {
        dqCount := 0;
        dqTstamp := now32;
      }
      if burstAllowance > dtime {
        burstAllowance := burstAllowance - dtime;
      } else {
        burstAllowance := 0;
      }
    }
  }
}
