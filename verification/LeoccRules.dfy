/** What one ACK does to each part of the state, in terms of samples, clocks and numbers of packets. */
module LeoccRules {
  import opened LeoccMath
  import opened LeoccKalman
  import opened LeoccModel
  import opened LeoccRuns
  import opened Widths

  // Clocks and counters

  /** The distance from one 32-bit counter value up to another. */
  function Since(from: nat, to: nat): nat {
    (to - from) % UINT32
  }

  /** `now` lies after `mark`: ahead of it by at most half the range of the counter. */
  predicate Past(mark: nat, now: nat) {
    0 < Since(mark, now) <= UINT32 / 2
  }

  lemma AfterExactly(now: nat, mark: nat)
    ensures After(now, mark) <==> Past(mark, now)
  {
    var d := now - mark;
    Negated(d);
  }

  lemma Negated(d: int)
    ensures (-d) % UINT32 == if d % UINT32 == 0 then 0 else UINT32 - d % UINT32
  {
    var q := d / UINT32;
    assert d == UINT32 * q + d % UINT32;
    if d % UINT32 == 0 {
      assert -d == UINT32 * (-q);
    } else {
      assert -d == UINT32 * (-q - 1) + (UINT32 - d % UINT32);
      Remainder(-d, -q - 1, UINT32 - d % UINT32);
    }
  }

  lemma Remainder(a: int, q: int, r: nat)
    requires r < UINT32 && a == UINT32 * q + r
    ensures a % UINT32 == r
  {
    assert a / UINT32 == q;
  }

  /** A round trip has ended: the sample was sent at the mark or after it. */
  lemma RoundExactly(s: Leocc, rs: Sample)
    ensures RoundEnds(s, rs) <==> Since(s.nextRttDelivered, rs.priorDelivered) < UINT32 / 2
  {}

  /** The minimum round-trip time is more than twenty seconds old. */
  predicate OldMinimum(s: Leocc, env: Env) {
    20 * env.hz < Since(s.minRttStamp, env.jiffies) <= 20 * env.hz + UINT32 / 2
  }

  lemma ExpiredExactly(s: Leocc, env: Env)
    requires 20 * env.hz < UINT32 / 2
    ensures FilterExpired(s, env) <==> OldMinimum(s, env)
  {
    var w := 20 * env.hz;
    Deadline(s.minRttStamp, w, env.jiffies);
  }

  lemma Deadline(stamp: nat, w: nat, now: nat)
    requires w < UINT32 / 2
    ensures After(now, (stamp + w) % UINT32) <==> w < Since(stamp, now) <= w + UINT32 / 2
  {
    var e, mark := Since(stamp, now), (stamp + w) % UINT32;
    var q, p := (now - stamp) / UINT32, (stamp + w) / UINT32;
    assert now - stamp == UINT32 * q + e;
    assert stamp + w == UINT32 * p + mark;
    assert mark - now == UINT32 * (-q - p) + (w - e);
    if w >= e {
      Remainder(mark - now, -q - p, w - e);
    } else {
      Remainder(mark - now, -q - p - 1, UINT32 + w - e);
    }
  }

  // The parts of one ACK

  function Middle(s: Leocc, rs: Sample, env: Env): Leocc {
    Measured(BeforeModel(s, rs, env), rs, env)
  }

  function Drained(s: Leocc, rs: Sample, env: Env): Leocc {
    CheckDrain(Middle(s, rs, env), env)
  }

  lemma BeforeFields(s: Leocc, rs: Sample, env: Env)
    ensures var b := BeforeModel(s, rs, env); b == s.(trigger := s.trigger || env.raised, bwFilter := b.bwFilter)
    ensures BeforeModel(s, rs, env).bwFilter == if s.mode == Cruise && RoundEnds(s, rs) then Update(s.bwFilter, s.rttCntMaxBw) else s.bwFilter
  {
    hide Update, Before;
  }

  lemma BwFields(s: Leocc, rs: Sample, env: Env)
    ensures var t := UpdateBw(s, rs, env);
            t == s.(bw := t.bw, latestBw := t.latestBw, rttCntMaxBw := t.rttCntMaxBw, reconfMaxBw := t.reconfMaxBw, rttCnt := t.rttCnt,
                    nextRttDelivered := t.nextRttDelivered, roundStart := t.roundStart)
  {
    hide BwSample, Before, Filtered;
  }

  lemma CheckFields(s: Leocc, rs: Sample, env: Env)
    ensures var t := CheckFullBw(UpdateCycle(s, env), rs);
            t == s.(growth := t.growth, cycleIdx := if s.mode == Cruise && env.phaseOver then (s.cycleIdx + 1) % 8 else s.cycleIdx)
  {
    hide Grow;
  }

  /** What the measurements leave alone, the cycle of CRUISE and the filter over the maxima of its rounds. */
  lemma MiddleExactly(s: Leocc, rs: Sample, env: Env)
    ensures var m := Middle(s, rs, env);
            && m.mode == s.mode && m.idleRestart == s.idleRestart && m.trigger == (s.trigger || env.raised)
            && m.minRtt == s.minRtt && m.minRttStamp == s.minRttStamp
            && m.probeRttDoneStamp == s.probeRttDoneStamp && m.probeRttRoundDone == s.probeRttRoundDone
            && m.rttFilter == s.rttFilter
            && m.cycleIdx == (if s.mode == Cruise && env.phaseOver then (s.cycleIdx + 1) % 8 else s.cycleIdx)
            && m.bwFilter == (if s.mode == Cruise && RoundEnds(s, rs) then Update(s.bwFilter, s.rttCntMaxBw) else s.bwFilter)
  {
    hide Update, RoundEnds, BeforeModel, UpdateBw, CheckFullBw, UpdateCycle;
    var b := BeforeModel(s, rs, env);
    BeforeFields(s, rs, env);
    BwFields(b, rs, env);
    CheckFields(UpdateBw(b, rs, env), rs, env);
  }

  /** A sample that cannot be used. */
  lemma NoSample(s: Leocc, rs: Sample, env: Env)
    requires rs.delivered < 0 || rs.intervalUs <= 0
    ensures var m := Middle(s, rs, env);
            && !m.roundStart && m.bw == s.bw && m.latestBw == s.latestBw && m.rttCntMaxBw == s.rttCntMaxBw
            && m.reconfMaxBw == s.reconfMaxBw && m.nextRttDelivered == s.nextRttDelivered && m.rttCnt == s.rttCnt && m.growth == s.growth
  {
    hide Update, BwSample, Before, Threshold, Grow;
  }

  /** The bandwidth of a sample: packets per microsecond, in units of 2^-24, rounded down. */
  lemma SampleExactly(rs: Sample)
    requires rs.delivered >= 0 && rs.intervalUs > 0
    ensures BwSample(rs) * rs.intervalUs <= rs.delivered * 0x100_0000 < BwSample(rs) * rs.intervalUs + rs.intervalUs
  {
    Quotient(rs.delivered * 0x100_0000, rs.intervalUs);
  }

  lemma Quotient(a: nat, b: nat)
    requires b > 0
    ensures a / b * b <= a < a / b * b + b
  {}

  /** A sample of bandwidth `bw`: the maximum of the round is that of its samples, a sample that was application limited and below the
      maximum over several rounds does not go into it, and in PROBE_RTT a round-trip time well below its estimate keeps the
      sample before this one for the time after the reconfiguration. */
  lemma UsableSample(s: Leocc, rs: Sample, env: Env, bw: nat)
    requires rs.delivered >= 0 && rs.intervalUs > 0 && bw == BwSample(rs) < UINT32
    ensures var m, ends := Middle(s, rs, env), Since(s.nextRttDelivered, rs.priorDelivered) < UINT32 / 2;
            && m.roundStart == ends && m.latestBw == bw
            && (ends ==> m.nextRttDelivered == env.delivered && m.rttCnt == (s.rttCnt + 1) % UINT32 && m.rttCntMaxBw == bw)
            && (!ends ==> m.nextRttDelivered == s.nextRttDelivered && m.rttCnt == s.rttCnt
                          && m.rttCntMaxBw == (if bw > s.rttCntMaxBw then bw else s.rttCntMaxBw))
            && m.bw == (if rs.appLimited && bw < s.bw then s.bw else env.filtered)
            && m.reconfMaxBw == (if s.mode == ProbeRtt && rs.rttUs > 0 && s.rttFilter.hat > rs.rttUs + env.deltaThresh then s.latestBw else s.reconfMaxBw)
  {
    RoundExactly(s, rs);
    BelowWidth(bw);
    hide Update, BwSample, Before, Threshold, Grow, Since;
  }

  lemma BelowWidth(bw: nat)
    ensures bw < UINT32 ==> bw % UINT32 == bw
  {}

  // DRAIN

  /** On entering CRUISE the cycle begins at a random phase, but never at the one that drains the queue. */
  lemma CycleStart(s: Leocc, env: Env)
    ensures var t := ToCruise(s, env);
            t.cycleIdx == (8 - env.random % 7) % 8 && t.cycleIdx != 1 && t == s.(mode := Cruise, cycleIdx := t.cycleIdx)
  {}

  /** STARTUP is left for DRAIN, which forgets the trigger and the bandwidth kept for it; DRAIN is left for CRUISE exactly when the flight
      is down to what the estimated bandwidth and the minimum round-trip time call for. */
  lemma DrainedExactly(m: Leocc, env: Env)
    ensures var d, target := CheckDrain(m, env), Inflight(m.bw, m.minRtt, LEOCC_UNIT, env.tsoGoal, false);
            var draining := m.mode == Drain || (m.mode == Startup && m.growth.reached);
            && (d.mode == Drain <==> draining && env.inFlightAtEdt > target)
            && (draining && env.inFlightAtEdt <= target ==> d.mode == Cruise && d.cycleIdx != 1)
            && (!draining ==> d == m)
            && (m.mode == Startup && m.growth.reached ==> !d.trigger && d.reconfMaxBw == 0)
            && (m.mode == Drain ==> d.trigger == m.trigger && d.reconfMaxBw == m.reconfMaxBw)
            && d == m.(mode := d.mode, cycleIdx := d.cycleIdx, trigger := d.trigger, reconfMaxBw := d.reconfMaxBw)
  {
    hide Inflight, ToCruise;
    var r := if m.mode == Startup && m.growth.reached then m.(reconfMaxBw := 0, trigger := false, mode := Drain) else m;
    CycleStart(r, env);
  }

  // The minimum round-trip time and PROBE_RTT

  /** The sample replaces the minimum: it is smaller, or the minimum is old and the sample was not delayed. */
  predicate Replaces(s: Leocc, rs: Sample, env: Env) {
    rs.rttUs >= 0 && (rs.rttUs < s.minRtt || (OldMinimum(s, env) && !rs.ackDelayed))
  }

  lemma TrackExactly(s: Leocc, rs: Sample, env: Env)
    requires 20 * env.hz < UINT32 / 2
    ensures var t := TrackMinRtt(s, rs, env);
            t == if Replaces(s, rs, env) then s.(minRtt := rs.rttUs % UINT32, minRttStamp := env.jiffies) else s
  {
    ExpiredExactly(s, env);
    hide FilterExpired, OldMinimum;
  }

  /** A round trip has ended since the end time was set, and that lies behind. */
  predicate ProbeOver(d: Leocc, env: Env) {
    d.mode == ProbeRtt && d.probeRttDoneStamp != 0 && (d.probeRttRoundDone || d.roundStart) && Past(d.probeRttDoneStamp, env.jiffies)
  }

  /** The largest flight with which the end time is set: half the bandwidth-delay product, but at least four packets. */
  function ProbeWindow(bw: nat, minRtt: nat): nat {
    var half := Bdp(bw, minRtt, LEOCC_UNIT / 2);
    if half > 4 then half else 4
  }

  lemma EnteredExactly(d: Leocc, rs: Sample, env: Env)
    requires 20 * env.hz < UINT32 / 2
    ensures var e := EnterProbeRtt(TrackMinRtt(d, rs, env), FilterExpired(d, env));
            var enters := d.mode == Cruise && !d.idleRestart && (OldMinimum(d, env) || d.trigger);
            && e == d.(mode := if enters then ProbeRtt else d.mode, probeRttDoneStamp := if enters then 0 else d.probeRttDoneStamp,
                       minRtt := e.minRtt, minRttStamp := e.minRttStamp)
            && e.minRtt == (if Replaces(d, rs, env) then rs.rttUs % UINT32 else d.minRtt)
            && e.minRttStamp == (if Replaces(d, rs, env) then env.jiffies else d.minRttStamp)
  {
    ExpiredExactly(d, env);
    TrackExactly(d, rs, env);
    hide FilterExpired, OldMinimum, TrackMinRtt, Replaces;
  }

  /** `leocc_update_min_rtt` when PROBE_RTT is not on or not over: the minimum, when a probe begins, and when its end time is set. */
  lemma ProbeGoesOn(d: Leocc, rs: Sample, env: Env)
    requires 20 * env.hz < UINT32 / 2 && !ProbeOver(d, env)
    ensures var u := UpdateMinRtt(d, rs, env);
            var begins := d.mode == Cruise && !d.idleRestart && (OldMinimum(d, env) || d.trigger);
            var waits := begins || (d.mode == ProbeRtt && d.probeRttDoneStamp == 0);
            && u.mode == (if begins then ProbeRtt else d.mode)
            && u.minRtt == (if Replaces(d, rs, env) then rs.rttUs % UINT32 else d.minRtt)
            && u.minRttStamp == (if Replaces(d, rs, env) then env.jiffies else d.minRttStamp)
            && (waits && env.inFlight <= ProbeWindow(u.bw, u.minRtt) ==>
                  u.probeRttDoneStamp == (env.jiffies + 200 * env.hz / 1000) % UINT32 && !u.probeRttRoundDone && u.nextRttDelivered == env.delivered)
            && (waits && env.inFlight > ProbeWindow(u.bw, u.minRtt) ==> u.probeRttDoneStamp == 0 && u.nextRttDelivered == d.nextRttDelivered)
            && (!waits ==> u.probeRttDoneStamp == d.probeRttDoneStamp && u.nextRttDelivered == d.nextRttDelivered)
            && (d.mode == ProbeRtt && d.probeRttDoneStamp != 0 ==> u.probeRttRoundDone == (d.probeRttRoundDone || d.roundStart))
            && u.idleRestart == (d.idleRestart && rs.delivered <= 0)
            && u.bw == d.bw && u.trigger == d.trigger && u.growth == d.growth && u.cycleIdx == d.cycleIdx && u.reconfMaxBw == d.reconfMaxBw
  {
    EnteredExactly(d, rs, env);
    var e := EnterProbeRtt(TrackMinRtt(d, rs, env), FilterExpired(d, env));
    hide FilterExpired, OldMinimum, TrackMinRtt, Replaces, EnterProbeRtt, Bdp, CheckProbeRttDone, RefreshMinRtt, Before;
    if e.mode == ProbeRtt && e.probeRttDoneStamp != 0 && (e.probeRttRoundDone || e.roundStart) {
      AfterExactly(env.jiffies, e.probeRttDoneStamp);
      NotOver(e.(probeRttRoundDone := true), rs, env);
    }
  }

  lemma NotOver(e: Leocc, rs: Sample, env: Env)
    requires !After(env.jiffies, e.probeRttDoneStamp)
    ensures RefreshMinRtt(e, rs, env) == e && CheckProbeRttDone(e, env) == e
  {
    hide Before;
  }

  /** When it is over: the minimum is taken afresh, and the probe ends in STARTUP with the bandwidth kept for a reconfiguration, or in
      CRUISE with the bandwidth it had. */
  lemma ProbeEndsExactly(d: Leocc, rs: Sample, env: Env)
    requires 20 * env.hz < UINT32 / 2 && ProbeOver(d, env)
    ensures var u := UpdateMinRtt(d, rs, env);
            && u.minRtt == rs.rttUs % UINT32 && u.minRttStamp == env.jiffies && u.trigger == d.trigger
            && (d.trigger ==> u.mode == Startup && u.growth == Growth(0, 0, false) && u.bw == d.reconfMaxBw)
            && (!d.trigger && d.growth.reached ==> u.mode == Cruise && u.cycleIdx != 1 && u.growth == d.growth && u.bw == d.bw)
            && u.idleRestart == (d.idleRestart && rs.delivered <= 0)
  {
    EnteredExactly(d, rs, env);
    var e := EnterProbeRtt(TrackMinRtt(d, rs, env), FilterExpired(d, env));
    hide FilterExpired, OldMinimum, TrackMinRtt, Replaces, EnterProbeRtt, Bdp, CheckProbeRttDone, RefreshMinRtt, Before;
    AfterExactly(env.jiffies, e.probeRttDoneStamp);
    var r := if e.roundStart then e.(probeRttRoundDone := true) else e;
    IsOver(r, rs, env);
  }

  lemma IsOver(e: Leocc, rs: Sample, env: Env)
    requires e.mode == ProbeRtt && e.probeRttDoneStamp != 0 && After(env.jiffies, e.probeRttDoneStamp)
    ensures var r := RefreshMinRtt(e, rs, env);
            var u := CheckProbeRttDone(r, env);
            && u.minRtt == rs.rttUs % UINT32 && u.minRttStamp == env.jiffies && u.trigger == e.trigger && u.idleRestart == e.idleRestart
            && (e.trigger ==> u.mode == Startup && u.growth == Growth(0, 0, false) && u.bw == e.reconfMaxBw)
            && (!e.trigger && e.growth.reached ==> u.mode == Cruise && u.cycleIdx != 1 && u.growth == e.growth && u.bw == e.bw)
  {
    hide Before, ToCruise;
    CycleStart(RefreshMinRtt(e, rs, env), env);
  }

  // One whole ACK

  lemma LastFields(u: Leocc, rs: Sample, env: Env)
    ensures var t := AfterModel(UpdateGains(u, env), rs);
            && t == u.(pacingGain := t.pacingGain, cwndGain := t.cwndGain, rttFilter := t.rttFilter)
            && t.rttFilter == (if rs.rttUs > 0 then Update(u.rttFilter, rs.rttUs) else u.rttFilter)
  {
    hide Update;
  }

  lemma MainParts(s: Leocc, rs: Sample, env: Env)
    ensures var u := UpdateMinRtt(Drained(s, rs, env), rs, env);
            var t := Main(s, rs, env);
            t == AfterModel(UpdateGains(u, env), rs) == u.(pacingGain := t.pacingGain, cwndGain := t.cwndGain, rttFilter := t.rttFilter)
  {
    LastFields(UpdateMinRtt(Drained(s, rs, env), rs, env), rs, env);
    hide Measured, BeforeModel, CheckDrain, UpdateMinRtt, Update;
  }

  /** In CRUISE an ACK starts the probe exactly if there has been no idle restart and a reconfiguration is pending or raised or the
      minimum is more than twenty seconds old. */
  lemma CruiseEndsExactly(s: Leocc, rs: Sample, env: Env)
    requires s.mode == Cruise && 20 * env.hz < UINT32 / 2
    ensures var t := Main(s, rs, env);
            t.mode == if !s.idleRestart && (s.trigger || env.raised || OldMinimum(s, env)) then ProbeRtt else Cruise
  {
    hide Middle, CheckDrain, UpdateMinRtt, Main, OldMinimum;
    var m, d := Middle(s, rs, env), Drained(s, rs, env);
    MiddleExactly(s, rs, env);
    DrainedExactly(m, env);
    SameAge(s, d, env);
    ProbeGoesOn(d, rs, env);
    MainParts(s, rs, env);
  }

  lemma SameAge(s: Leocc, d: Leocc, env: Env)
    requires d.minRttStamp == s.minRttStamp
    ensures OldMinimum(s, env) == OldMinimum(d, env)
  {}

  /** DRAIN lasts exactly while the flight is above the target, and ends in CRUISE or, if a probe is due, in PROBE_RTT. */
  lemma DrainLastsExactly(s: Leocc, rs: Sample, env: Env)
    requires s.mode == Drain && 20 * env.hz < UINT32 / 2
    ensures var t := Main(s, rs, env);
            && (t.mode == Drain <==> env.inFlightAtEdt > Inflight(t.bw, s.minRtt, LEOCC_UNIT, env.tsoGoal, false))
            && (t.mode != Drain ==> t.mode == if !s.idleRestart && (s.trigger || env.raised || OldMinimum(s, env)) then ProbeRtt else Cruise)
  {
    hide Middle, CheckDrain, UpdateMinRtt, Main, OldMinimum, Inflight;
    var m, d := Middle(s, rs, env), Drained(s, rs, env);
    MiddleExactly(s, rs, env);
    DrainedExactly(m, env);
    SameAge(s, d, env);
    ProbeGoesOn(d, rs, env);
    MainParts(s, rs, env);
  }

  /** When STARTUP ends the trigger and the bandwidth kept for it are forgotten, and DRAIN begins unless the flight is already down. */
  lemma StartupLeftExactly(s: Leocc, rs: Sample, env: Env)
    requires s.mode == Startup && Main(s, rs, env).mode != Startup && 20 * env.hz < UINT32 / 2
    ensures var t := Main(s, rs, env);
            && !t.trigger && t.reconfMaxBw == 0
            && (t.mode == Drain <==> env.inFlightAtEdt > Inflight(t.bw, s.minRtt, LEOCC_UNIT, env.tsoGoal, false))
  {
    hide Middle, CheckDrain, UpdateMinRtt, Main, OldMinimum, Inflight;
    var m, d := Middle(s, rs, env), Drained(s, rs, env);
    MiddleExactly(s, rs, env);
    DrainedExactly(m, env);
    ProbeGoesOn(d, rs, env);
    MainParts(s, rs, env);
  }

  /** PROBE_RTT sets its end time two hundred milliseconds ahead, exactly once the flight is down to the window. */
  lemma ProbeWaitsExactly(s: Leocc, rs: Sample, env: Env)
    requires s.mode == ProbeRtt && s.probeRttDoneStamp == 0 && 20 * env.hz < UINT32 / 2
    ensures var t := Main(s, rs, env);
            && t.mode == ProbeRtt
            && t.probeRttDoneStamp == (if env.inFlight <= ProbeWindow(t.bw, t.minRtt) then (env.jiffies + 200 * env.hz / 1000) % UINT32 else 0)
            && (env.inFlight <= ProbeWindow(t.bw, t.minRtt) ==> !t.probeRttRoundDone && t.nextRttDelivered == env.delivered)
  {
    hide Middle, CheckDrain, UpdateMinRtt, Main, OldMinimum, ProbeWindow, Inflight;
    MiddleExactly(s, rs, env);
    DrainedExactly(Middle(s, rs, env), env);
    ProbeGoesOn(Drained(s, rs, env), rs, env);
    MainParts(s, rs, env);
  }

  /** PROBE_RTT with its end time set lasts exactly until that has passed and a round trip has ended. Then the minimum is that of this
      sample, and the next mode is STARTUP if a reconfiguration is pending and CRUISE if not. */
  lemma ProbeLastsExactly(s: Leocc, rs: Sample, env: Env)
    requires Inv(s) && s.mode == ProbeRtt && s.probeRttDoneStamp != 0 && 20 * env.hz < UINT32 / 2
    ensures var t := Main(s, rs, env);
            var ended := Usable(rs) && Since(s.nextRttDelivered, rs.priorDelivered) < UINT32 / 2;
            var over := (s.probeRttRoundDone || ended) && Past(s.probeRttDoneStamp, env.jiffies);
            && (!over ==> t.mode == ProbeRtt && t.probeRttDoneStamp == s.probeRttDoneStamp && t.probeRttRoundDone == (s.probeRttRoundDone || ended))
            && (over ==> t.mode == (if s.trigger || env.raised then Startup else Cruise)
                         && t.minRtt == rs.rttUs % UINT32 && t.minRttStamp == env.jiffies)
  {
    hide CheckDrain, UpdateMinRtt, Main, OldMinimum, ProbeWindow, Inflight, Past, Replaces, Since, Usable, RoundEnds, Middle;
    RoundStarted(s, rs, env);
    MiddleExactly(s, rs, env);
    DrainedExactly(Middle(s, rs, env), env);
    var d := Drained(s, rs, env);
    assert d == Middle(s, rs, env);
    MainParts(s, rs, env);
    if ProbeOver(d, env) {
      ProbeEndsExactly(d, rs, env);
    } else {
      ProbeGoesOn(d, rs, env);
    }
  }

  lemma RoundStarted(s: Leocc, rs: Sample, env: Env)
    requires Inv(s)
    ensures var m := Middle(s, rs, env);
            && m.roundStart == (Usable(rs) && Since(s.nextRttDelivered, rs.priorDelivered) < UINT32 / 2)
            && (s.growth.reached ==> m.growth == s.growth)
  {
    hide Measured, BeforeModel;
    MeasuredKeeps(s, rs, env);
    RoundExactly(s, rs);
  }

  /** The minimum round-trip time after any ACK that does not end a probe: the sample if that is smaller, or if the minimum is more than
      twenty seconds old and the ACK was not delayed; otherwise the old one. */
  lemma MinimumExactly(s: Leocc, rs: Sample, env: Env)
    requires 20 * env.hz < UINT32 / 2 && (s.mode == ProbeRtt ==> s.probeRttDoneStamp == 0 || !Past(s.probeRttDoneStamp, env.jiffies))
    ensures var t := Main(s, rs, env);
            && t.minRtt == (if Replaces(s, rs, env) then rs.rttUs % UINT32 else s.minRtt)
            && t.minRttStamp == (if Replaces(s, rs, env) then env.jiffies else s.minRttStamp)
  {
    hide Middle, CheckDrain, UpdateMinRtt, Main, OldMinimum, ProbeWindow, Inflight, Past;
    MiddleExactly(s, rs, env);
    DrainedExactly(Middle(s, rs, env), env);
    var d := Drained(s, rs, env);
    SameAge(s, d, env);
    ProbeGoesOn(d, rs, env);
    MainParts(s, rs, env);
  }

  /** The gains after an ACK: STARTUP paces at almost three times the bandwidth, DRAIN at the inverse of that to within one percent, CRUISE
      through its cycle, PROBE_RTT at the bandwidth. */
  lemma GainsByMode(s: Leocc, rs: Sample, env: Env)
    ensures var t := Main(s, rs, env);
            && (t.mode == Startup ==> t.pacingGain == t.cwndGain == 739)
            && (t.mode == Drain ==> t.pacingGain == 88 && t.cwndGain == 739)
            && (t.mode == Cruise ==> t.pacingGain == (if t.cycleIdx == 0 then env.probeGain else if t.cycleIdx == 1 then 192 else 256) && t.cwndGain == 512)
            && (t.mode == ProbeRtt ==> t.pacingGain == t.cwndGain == 256)
    ensures 99 * 256 * 256 < 100 * (739 * 88) < 101 * 256 * 256
  {
    MainParts(s, rs, env);
    LastGains(UpdateMinRtt(Drained(s, rs, env), rs, env), rs, env);
    hide Measured, BeforeModel, CheckDrain, UpdateMinRtt, Update, Main;
  }

  lemma LastGains(u: Leocc, rs: Sample, env: Env)
    ensures var t := AfterModel(UpdateGains(u, env), rs);
            && (u.mode == Startup ==> t.pacingGain == t.cwndGain == 739)
            && (u.mode == Drain ==> t.pacingGain == 88 && t.cwndGain == 739)
            && (u.mode == Cruise ==> t.pacingGain == (if u.cycleIdx == 0 then env.probeGain else if u.cycleIdx == 1 then 192 else 256) && t.cwndGain == 512)
            && (u.mode == ProbeRtt ==> t.pacingGain == t.cwndGain == 256)
  {
    hide Update;
  }

  /** The bandwidth fields after an ACK are those the measurement left, unless it answers a reconfiguration or ends STARTUP. */
  lemma MeasurementStays(s: Leocc, rs: Sample, env: Env)
    ensures var m, t := Middle(s, rs, env), Main(s, rs, env);
            && t.latestBw == m.latestBw && t.rttCntMaxBw == m.rttCntMaxBw && t.rttCnt == m.rttCnt && t.roundStart == m.roundStart
            && ((t.mode == Startup && s.mode == ProbeRtt) || t.bw == m.bw)
            && ((s.mode == Startup && t.mode != Startup) || t.reconfMaxBw == m.reconfMaxBw)
            && t.bwFilter == m.bwFilter
            && t.rttFilter == (if rs.rttUs > 0 then Update(s.rttFilter, rs.rttUs) else s.rttFilter)
  {
    hide Middle, CheckDrain, UpdateMinRtt, Main, Update, Inflight;
    var m, d := Middle(s, rs, env), Drained(s, rs, env);
    MiddleExactly(s, rs, env);
    DrainedExactly(m, env);
    MinRttFields(d, rs, env);
    LastFields(UpdateMinRtt(d, rs, env), rs, env);
    MainParts(s, rs, env);
  }

  lemma MinRttFields(d: Leocc, rs: Sample, env: Env)
    ensures var u := UpdateMinRtt(d, rs, env);
            && u.latestBw == d.latestBw && u.rttCntMaxBw == d.rttCntMaxBw && u.rttCnt == d.rttCnt && u.roundStart == d.roundStart
            && (u.bw == d.bw || (u.mode == Startup && d.mode == ProbeRtt))
            && u.reconfMaxBw == d.reconfMaxBw && u.bwFilter == d.bwFilter && u.rttFilter == d.rttFilter
            && (u.mode == Startup ==> d.mode in {Startup, ProbeRtt})
  {
    hide FilterExpired, Bdp, Before, TrackMinRtt, RefreshMinRtt, CheckProbeRttDone, EnterProbeRtt;
    EnterFields(d, rs, env);
    var e := EnterProbeRtt(TrackMinRtt(d, rs, env), FilterExpired(d, env));
    if e.mode == ProbeRtt && e.probeRttDoneStamp != 0 {
      var r := if e.roundStart then e.(probeRttRoundDone := true) else e;
      RefreshKeeps(r, rs, env);
      DoneFields(RefreshMinRtt(r, rs, env), env);
    }
  }

  lemma EnterFields(d: Leocc, rs: Sample, env: Env)
    ensures var e := EnterProbeRtt(TrackMinRtt(d, rs, env), FilterExpired(d, env));
            && e == d.(mode := e.mode, probeRttDoneStamp := e.probeRttDoneStamp, minRtt := e.minRtt, minRttStamp := e.minRttStamp)
            && (e.mode == d.mode || e.mode == ProbeRtt) && (e.mode == ProbeRtt && e.probeRttDoneStamp != 0 ==> d.mode == ProbeRtt)
  {
    hide TrackMinRtt, FilterExpired;
    TrackSame(d, rs, env);
  }

  lemma DoneFields(s: Leocc, env: Env)
    ensures var t := CheckProbeRttDone(s, env);
            && t == s.(mode := t.mode, growth := t.growth, cycleIdx := t.cycleIdx, bw := t.bw)
            && (t.bw == s.bw || t.mode == Startup) && (t.mode == Startup ==> s.mode == Startup || s.probeRttDoneStamp != 0)
  {
    hide Before;
  }

  // The filters over whole runs

  /** The samples that reach the round-trip filter. */
  function RttSamples(es: seq<Event>): seq<nat> {
    if es == [] then [] else (if es[0].Ack? && es[0].rs.rttUs > 0 then [es[0].rs.rttUs] else []) + RttSamples(es[1..])
  }

  /** The maxima of the rounds that end in CRUISE. */
  function RoundMaxima(s: Leocc, es: seq<Event>): seq<nat>
    decreases |es|
  {
    if es == [] then []
    else (if es[0].Ack? && s.mode == Cruise && RoundEnds(s, es[0].rs) then [s.rttCntMaxBw] else []) + RoundMaxima(Happen(s, es[0]), es[1..])
  }

  lemma OtherEvents(s: Leocc, e: Event)
    requires !e.Ack?
    ensures Happen(s, e).bwFilter == s.bwFilter && Happen(s, e).rttFilter == s.rttFilter
  {
    hide Before;
  }

  lemma UpdateOne(f: Filter, z: nat, zs: seq<nat>)
    ensures UpdateAll(f, [z] + zs) == UpdateAll(Update(f, z), zs)
  {
    hide Update;
    assert ([z] + zs)[1..] == zs;
  }

  /** Over every run the two filters have seen exactly the positive round-trip times, and the maxima of the rounds that ended in CRUISE. */
  lemma {:induction false} FiltersSeeExactly(s: Leocc, es: seq<Event>)
    ensures var r := Run(s, es);
            && r.rttFilter == UpdateAll(s.rttFilter, RttSamples(es))
            && r.bwFilter == UpdateAll(s.bwFilter, RoundMaxima(s, es))
    decreases |es|
  {
    hide Happen, Update, RoundEnds;
    if es != [] {
      var t, rest := Happen(s, es[0]), es[1..];
      FiltersSeeExactly(t, rest);
      assert [] + RttSamples(rest) == RttSamples(rest) && [] + RoundMaxima(t, rest) == RoundMaxima(t, rest);
      if es[0].Ack? {
        AckFilters(s, es[0].rs, es[0].env);
        UpdateOne(s.rttFilter, if es[0].rs.rttUs > 0 then es[0].rs.rttUs else 0, RttSamples(rest));
        UpdateOne(s.bwFilter, s.rttCntMaxBw, RoundMaxima(t, rest));
      } else {
        OtherEvents(s, es[0]);
      }
    }
  }

  lemma AckFilters(s: Leocc, rs: Sample, env: Env)
    ensures var t := Happen(s, Ack(rs, env));
            && t.rttFilter == (if rs.rttUs > 0 then Update(s.rttFilter, rs.rttUs) else s.rttFilter)
            && t.bwFilter == (if s.mode == Cruise && RoundEnds(s, rs) then Update(s.bwFilter, s.rttCntMaxBw) else s.bwFilter)
  {
    hide Main, Update, RoundEnds;
    MeasurementStays(s, rs, env);
    MiddleExactly(s, rs, env);
  }

  // The other callbacks

  /** After an undo the growth check starts over, and after a timeout the next check can only find growth. */
  lemma GrowthForgotten(s: Leocc, maxBw: nat)
    requires !s.growth.reached
    ensures Happen(s, UndoCwnd) == s.(growth := Growth(0, 0, false))
    ensures var t := Happen(s, Loss); t == s.(growth := t.growth, roundStart := true) && Grow(t.growth, maxBw) == Growth(maxBw, 0, false)
  {
    assert Threshold(0) == 0;
    hide Threshold;
  }

  /** A transmission after idleness delays the next probe, and ends one whose end time has passed. */
  lemma IdleExactly(s: Leocc, env: Env)
    requires Inv(s)
    ensures var t := Happen(s, TxStart(env));
            && t.idleRestart && t.trigger == s.trigger
            && t.mode == (if s.mode == ProbeRtt && s.probeRttDoneStamp != 0 && Past(s.probeRttDoneStamp, env.jiffies)
                          then (if s.trigger then Startup else Cruise) else s.mode)
            && (t.mode == s.mode ==> t == s.(idleRestart := true))
  {
    AfterExactly(env.jiffies, s.probeRttDoneStamp);
    hide Before, Past;
  }
}
