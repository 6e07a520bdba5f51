/** What one period of PIE, one departure and one arrival do, in numbers. */
module PieLaw {
  import opened PacketQueues
  import opened PieQueue
  import opened Widths

  /** Delays that fit the `int` the code casts them to. */
  predicate SmallDelays(s: Pie) {
    DelayNow(s) < UINT32 / 2 && s.qdelay < UINT32 / 2 && s.qdelayRef < UINT32 / 2
  }

  /** The estimated delay: whole milliseconds to send what is queued at the measured rate, none while no rate is known. */
  lemma DelayExactly(s: Pie)
    ensures s.avgDqRate == 0 ==> DelayNow(s) == 0
    ensures s.avgDqRate > 0 ==> var d := DelayNow(s); d * s.avgDqRate <= Bytes(s.queue) < d * s.avgDqRate + s.avgDqRate
  {
    if s.avgDqRate > 0 {
      Quotient(Bytes(s.queue), s.avgDqRate);
    }
  }

  lemma Quotient(a: nat, b: nat)
    requires b > 0
    ensures a / b * b <= a < a / b * b + b
  {}

  /** How much one millisecond of delay moves the probability: less while it is small. */
  function Gain(p: real): real {
    if p < 0.01 then 1024.0 else if p < 0.1 then 256.0 else 128.0
  }

  /** The distance of the delay from the reference, and ten times its change. */
  function Push(delay: nat, reference: nat, before: nat): real {
    (delay - reference) as real + 10.0 * (delay - before) as real
  }

  lemma StepExactly(p: real, delay: nat, reference: nat, before: nat)
    requires delay < UINT32 / 2 && reference < UINT32 / 2 && before < UINT32 / 2
    ensures Gain(p) * Step(p, delay, reference, before) == Push(delay, reference, before)
  {
    Int32Small(delay - reference);
    Int32Small(delay - before);
    hide Int32;
  }

  /** The control law: in each period the probability moves by that push over that gain, held within [0, 1]; and with nothing queued
      and no delay in the two periods it decays by two percent besides. */
  lemma PeriodExactly(s: Pie)
    requires SmallDelays(s) && Probability(s.dropProb)
    ensures var p, q, g, push := s.dropProb, Period(s).dropProb, Gain(s.dropProb), Push(DelayNow(s), s.qdelayRef, s.qdelay);
            var idle := Bytes(s.queue) == 0 && DelayNow(s) == 0 && s.qdelay == 0 && g * p + push <= g;
            && (!idle && 0.0 <= g * p + push <= g ==> g * (q - p) == push)
            && (g * p + push < 0.0 ==> q == 0.0)
            && (g * p + push > g ==> q == 1.0)
            && (idle && 0.0 <= g * p + push ==> g * q == 0.98 * (g * p + push))
    ensures Period(s).qdelay == DelayNow(s) && Period(s).qdelayOld == s.qdelay
  {
    StepExactly(s.dropProb, DelayNow(s), s.qdelayRef, s.qdelay);
    hide Step, DelayNow, Bytes, Push, Relax;
    RelaxKeeps();
    ClampedMove(s.dropProb, Step(s.dropProb, DelayNow(s), s.qdelayRef, s.qdelay), Push(DelayNow(s), s.qdelayRef, s.qdelay));
  }

  lemma ClampedMove(p: real, step: real, push: real)
    requires Gain(p) * step == push
    ensures var g, r := Gain(p), Clamp(p + step);
            && (0.0 <= g * p + push <= g ==> g * (r - p) == push && 0.0 <= p + step <= 1.0)
            && (g * p + push < 0.0 ==> r == 0.0 && p + step < 0.0)
            && (g * p + push > g ==> r == 1.0 && p + step > 1.0)
            && (g * p + push <= g <==> p + step <= 1.0)
            && (0.0 <= g * p + push <= g ==> g * (r * 0.98) == 0.98 * (g * p + push))
  {}

  lemma RelaxKeeps()
    ensures forall t: Pie :: Relax(t).dropProb == t.dropProb && Relax(t).qdelay == t.qdelay && Relax(t).qdelayOld == t.qdelayOld
  {}

  /** The end of congestion: no drops, and both delays below half the reference, while a rate is known. */
  predicate Calm(s: Pie, dropProb: real) {
    dropProb == 0.0 && DelayNow(s) < s.qdelayRef / 2 && s.qdelay < s.qdelayRef / 2 && s.avgDqRate > 0
  }

  /** Then the rate is forgotten and a whole burst allowed; otherwise a period uses up thirty milliseconds of the allowance. */
  lemma AllowanceExactly(s: Pie)
    requires s.burst < UINT32 / 2
    ensures var t := Period(s);
            if Calm(s, t.dropProb) then t.burst == s.maxBurst && t.avgDqRate == 0 && t.dqCount == DQ_COUNT_INVALID
            else t.burst == (if s.burst > 30 then s.burst - 30 else 0) && t.avgDqRate == s.avgDqRate && t.dqCount == s.dqCount
    ensures Period(s).dqTstamp == s.dqTstamp && Period(s).maxBurst == s.maxBurst && Period(s).qdelayRef == s.qdelayRef
  {
    Int32Small(s.burst);
    hide Int32, Step, DelayNow, Bytes, Clamp;
  }

  /** Without a measured rate the allowance runs out at its own pace. */
  lemma {:induction false} AllowanceRunsOut(s: Pie, n: nat)
    requires s.burst < UINT32 / 2 && s.avgDqRate == 0
    ensures Periods(s, n).burst == if s.burst > 30 * n then s.burst - 30 * n else 0
    decreases n
  {
    hide Period;
    if n > 0 {
      AllowanceExactly(s);
      AllowanceRunsOut(Period(s), n - 1);
    }
  }

  // The measured rate

  /** The average moves an eighth of the way to the sample, to within a byte. */
  lemma SmoothedExactly(rate: nat, sample: nat)
    ensures rate == 0 ==> Smoothed(rate, sample) == sample
    ensures rate > 0 ==> 7 * rate + sample - 7 <= 8 * Smoothed(rate, sample) <= 7 * rate + sample + 7
  {}

  /** While the queue is short and nothing is being measured a departure leaves the rate alone; a long queue begins a measurement. */
  lemma MeasurementBegins(s: Pie, size: nat, now: nat)
    requires s.dqCount == DQ_COUNT_INVALID && size <= PACKET_SIZE
    ensures Measure(s, size, now) == if Bytes(s.queue) >= 16384 then s.(dqCount := size, dqTstamp := now % UINT32) else s
  {
    hide Bytes, EndMeasurement;
  }

  /** A measurement goes on until more than 16384 bytes have left and some time has passed. The sample is the bytes per millisecond; the
      time is taken off the burst allowance; and the next one begins at once if the queue is still long. */
  lemma MeasurementGoesOn(s: Pie, size: nat, elapsed: nat)
    requires s.dqCount != DQ_COUNT_INVALID && s.dqCount + size < DQ_COUNT_INVALID && s.dqTstamp < UINT32 && elapsed < UINT32
    ensures var now, count := s.dqTstamp + elapsed, s.dqCount + size;
            var t := Measure(s, size, now);
            if count <= 16384 || elapsed == 0 then t == s.(dqCount := count)
            else && (s.avgDqRate == 0 ==> t.avgDqRate == count / elapsed)
                 && (s.avgDqRate > 0 ==> 7 * s.avgDqRate + count / elapsed - 7 <= 8 * t.avgDqRate <= 7 * s.avgDqRate + count / elapsed + 7)
                 && t.burst == (if s.burst > elapsed then s.burst - elapsed else 0)
                 && (if Bytes(s.queue) < 16384 then t.dqCount == DQ_COUNT_INVALID else t.dqCount == 0 && t.dqTstamp == now % UINT32)
                 && t == s.(avgDqRate := t.avgDqRate, burst := t.burst, dqCount := t.dqCount, dqTstamp := t.dqTstamp)
  {
    var now, count := s.dqTstamp + elapsed, s.dqCount + size;
    Elapsed(s.dqTstamp, elapsed);
    assert count % UINT32 == count;
    hide Bytes;
    if elapsed > 0 {
      SmoothedExactly(s.avgDqRate, count / elapsed);
    }
    hide Smoothed;
  }

  lemma Elapsed(stamp: nat, elapsed: nat)
    requires stamp < UINT32 && elapsed < UINT32
    ensures ((stamp + elapsed) % UINT32 - stamp) % UINT32 == elapsed
  {}

  // Arrivals

  /** Exactly when a packet that there is room for is refused: the burst allowance is used up, at least two packets' worth of bytes are
      queued, the draw is below the probability, and that is at least 0.2 or the delay was at least half the reference.
      Without room it is refused too; otherwise it joins the queue. */
  lemma RefusedExactly(s: Pie, p: Packet, now: nat, random: real)
    requires Valid(s)
    ensures var c, r := CatchUp(s, now), EnqueueAt(s, p, now, random);
            var d := s.limits;
            var room := (d.byteLimit == 0 || Bytes(s.queue) + |p.contents| <= d.byteLimit) && (d.packetLimit == 0 || |s.queue| < d.packetLimit);
            var refused := c.burst == 0 && Bytes(s.queue) >= 3008 && random < c.dropProb && (c.dropProb >= 0.2 || c.qdelayOld >= s.qdelayRef / 2);
            r == if room && !refused then c.(queue := s.queue + [p]) else c
  {
    hide CatchUp, Bytes;
    CatchUpKeeps(s, now);
  }
}
