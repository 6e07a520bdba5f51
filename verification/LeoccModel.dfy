/** The state machine of leocc.c: modes, reconfiguration trigger, bandwidth filter and full-bandwidth detection.
    The two variants differ in where the trigger comes from, which is an input here. */
module LeoccModel {
  import opened LeoccMath
  import opened LeoccKalman
  import opened Widths

  datatype Mode = Startup | Drain | Cruise | ProbeRtt

  const HIGH_GAIN: nat := LEOCC_UNIT * 2885 / 1000 + 1
  const DRAIN_GAIN: nat := LEOCC_UNIT * 1000 / 2885
  const CWND_GAIN: nat := LEOCC_UNIT * 2
  const PROBE_RTT_CWND_GAIN: nat := LEOCC_UNIT / 2
  const CYCLE_LEN: nat := 8
  const CYCLE_RAND: nat := 7
  const CWND_MIN_TARGET: nat := 4
  const FULL_BW_THRESH: nat := LEOCC_UNIT * 5 / 4
  const FULL_BW_CNT: nat := 3
  const MIN_RTT_WIN_SEC: nat := 20
  const PROBE_RTT_MODE_MS: nat := 200

  /** The growth check of STARTUP: `full_bw`, the 2-bit `full_bw_cnt` and `full_bw_reached`. */
  datatype Growth = Growth(fullBw: nat, cnt: nat, reached: bool)

  /** The fields of `struct leocc` that decide about modes and filters; `bw` is what the windowed maximum holds. */
  datatype Leocc = Leocc(mode: Mode, trigger: bool, growth: Growth,
                         bw: nat, latestBw: nat, rttCntMaxBw: nat, reconfMaxBw: nat,
                         rttCnt: nat, nextRttDelivered: nat, roundStart: bool, idleRestart: bool,
                         minRtt: nat, minRttStamp: nat, probeRttDoneStamp: nat, probeRttRoundDone: bool,
                         cycleIdx: nat, bwFilter: Filter, rttFilter: Filter, pacingGain: nat, cwndGain: nat)

  /** `rate_sample`. */
  datatype Sample = Sample(delivered: int, intervalUs: int, priorDelivered: nat, rttUs: int, appLimited: bool, ackDelayed: bool)

  /** What the callback reads around it: the clock and counters of the socket, the random draw, the windowed
      maximum after the sample, whether the cruise phase is over, and whether a trigger is raised. */
  datatype Env = Env(jiffies: nat, hz: nat, delivered: nat, inFlight: nat, inFlightAtEdt: nat, tsoGoal: nat,
                     random: nat, filtered: nat, phaseOver: bool, raised: bool, deltaThresh: nat, probeGain: nat)

  /** `before` and `after` on 32-bit counters. */
  predicate Before(a: nat, b: nat) {
    (a - b) % UINT32 >= UINT32 / 2
  }

  predicate After(a: nat, b: nat) {
    Before(b, a)
  }

  function Init(delivered: nat, jiffies: nat, minRtt: nat): Leocc {
    Leocc(Startup, false, Growth(0, 0, false), 0, 0, 0, 0, 0, delivered, false, false,
          minRtt, jiffies, 0, false, 0, InitFilter(), InitFilter(), 0, 0)
  }

  /** The bandwidth sample, in packets per microsecond times 2^24. */
  function BwSample(rs: Sample): nat
    requires rs.delivered >= 0 && rs.intervalUs > 0
  {
    rs.delivered * BW_UNIT / rs.intervalUs
  }

  predicate Usable(rs: Sample) {
    rs.delivered >= 0 && rs.intervalUs > 0
  }

  /** The sample ends a round trip. */
  predicate RoundEnds(s: Leocc, rs: Sample) {
    !Before(rs.priorDelivered, s.nextRttDelivered)
  }

  /** The sample goes into the windowed maximum. */
  predicate Filtered(s: Leocc, rs: Sample) {
    Usable(rs) && (!rs.appLimited || BwSample(rs) >= s.bw)
  }

  /** What the kernel's windowed maximum promises: at least the new sample, and no more than before unless that is the sample. */
  predicate FilterContract(s: Leocc, rs: Sample, filtered: nat) {
    Filtered(s, rs) ==>
      var bw := BwSample(rs) % UINT32; bw <= filtered && (filtered <= s.bw || filtered == bw)
  }

  /** `leocc_update_bw`: whether the sample starts a round. */
  function StartRound(s: Leocc, rs: Sample, env: Env): Leocc {
    if RoundEnds(s, rs) then s.(nextRttDelivered := env.delivered, rttCnt := (s.rttCnt + 1) % UINT32, rttCntMaxBw := 0, roundStart := true)
    else s.(roundStart := false)
  }

  /** `leocc_update_bw`: a usable sample raises the maximum of the round; a long delay in PROBE_RTT keeps the last sample for
      the reset of the filter. */
  function RecordRound(s: Leocc, rs: Sample, env: Env): Leocc
    requires Usable(rs)
  {
    s.(rttCntMaxBw := if BwSample(rs) > s.rttCntMaxBw then BwSample(rs) % UINT32 else s.rttCntMaxBw,
       reconfMaxBw := if s.mode == ProbeRtt && rs.rttUs > 0 && s.rttFilter.hat > rs.rttUs + env.deltaThresh then s.latestBw else s.reconfMaxBw)
  }

  /** `leocc_update_bw`: the sample goes into the windowed maximum. */
  function RecordMax(s: Leocc, rs: Sample, env: Env): Leocc
    requires Usable(rs)
  {
    s.(bw := if Filtered(s, rs) then env.filtered else s.bw, latestBw := BwSample(rs) % UINT32)
  }

  /** `leocc_update_bw`. */
  function UpdateBw(s: Leocc, rs: Sample, env: Env): Leocc {
    if !Usable(rs) then s.(roundStart := false) else RecordMax(RecordRound(StartRound(s, rs, env), rs, env), rs, env)
  }

  function AdvanceCycle(s: Leocc): Leocc {
    s.(cycleIdx := (s.cycleIdx + 1) % CYCLE_LEN)
  }

  /** `leocc_update_cycle_phase`. */
  function UpdateCycle(s: Leocc, env: Env): Leocc {
    if s.mode == Cruise && env.phaseOver then AdvanceCycle(s) else s
  }

  /** The threshold of 5/4, computed in 32 bits. */
  function Threshold(fullBw: nat): nat {
    fullBw * FULL_BW_THRESH / LEOCC_UNIT % UINT32
  }

  /** `leocc_check_full_bw_reached` at a round start with a sample that is not application limited. */
  function Grow(g: Growth, maxBw: nat): Growth {
    if g.reached then g
    else if maxBw >= Threshold(g.fullBw) then g.(fullBw := maxBw, cnt := 0)
    else
      var cnt := (g.cnt + 1) % 4;
      g.(cnt := cnt, reached := cnt >= FULL_BW_CNT)
  }

  function CheckFullBw(s: Leocc, rs: Sample): Leocc {
    if s.growth.reached || !s.roundStart || rs.appLimited then s else s.(growth := Grow(s.growth, s.bw))
  }

  /** `leocc_reset_startup_mode` and `leocc_reset_probe_bw_mode`. */
  function ToStartup(s: Leocc): Leocc {
    s.(growth := Growth(0, 0, false), mode := Startup)
  }

  function ToCruise(s: Leocc, env: Env): Leocc {
    AdvanceCycle(s.(mode := Cruise, cycleIdx := CYCLE_LEN - 1 - env.random % CYCLE_RAND))
  }

  function InflightTarget(s: Leocc, env: Env): nat {
    Inflight(s.bw, s.minRtt, LEOCC_UNIT, env.tsoGoal, s.mode == Cruise && s.cycleIdx == 0)
  }

  /** `leocc_check_drain`. */
  function CheckDrain(s: Leocc, env: Env): Leocc {
    var d := if s.mode == Startup && s.growth.reached then s.(reconfMaxBw := 0, trigger := false, mode := Drain) else s;
    if d.mode == Drain && env.inFlightAtEdt <= InflightTarget(d, env) then ToCruise(d, env) else d
  }

  /** `leocc_check_probe_rtt_done` with `leocc_reset_mode`. */
  function CheckProbeRttDone(s: Leocc, env: Env): Leocc {
    if s.probeRttDoneStamp == 0 || !After(env.jiffies, s.probeRttDoneStamp) then s
    else
      var r := if !s.growth.reached || s.trigger then ToStartup(s) else ToCruise(s, env);
      if r.trigger then r.(bw := r.reconfMaxBw) else r
  }

  function ProbeRttCwnd(s: Leocc): nat {
    var bdp := Bdp(s.bw, s.minRtt, PROBE_RTT_CWND_GAIN);
    if bdp > CWND_MIN_TARGET then bdp else CWND_MIN_TARGET
  }

  predicate FilterExpired(s: Leocc, env: Env) {
    After(env.jiffies, (s.minRttStamp + MIN_RTT_WIN_SEC * env.hz) % UINT32)
  }

  /** The part of `leocc_update_min_rtt` that keeps the minimum. */
  function TrackMinRtt(s: Leocc, rs: Sample, env: Env): Leocc {
    if rs.rttUs >= 0 && (rs.rttUs < s.minRtt || (FilterExpired(s, env) && !rs.ackDelayed))
    then s.(minRtt := rs.rttUs % UINT32, minRttStamp := env.jiffies) else s
  }

  /** The part that runs in PROBE_RTT before its end time is set. */
  function SetProbeEnd(s: Leocc, env: Env): Leocc {
    if env.inFlight <= ProbeRttCwnd(s)
    then s.(probeRttDoneStamp := (env.jiffies + PROBE_RTT_MODE_MS * env.hz / 1000) % UINT32,
            probeRttRoundDone := false, nextRttDelivered := env.delivered)
    else s
  }

  /** The minimum is taken afresh after the end time. */
  function RefreshMinRtt(s: Leocc, rs: Sample, env: Env): Leocc {
    if After(env.jiffies, s.probeRttDoneStamp) then s.(minRtt := rs.rttUs % UINT32, minRttStamp := env.jiffies) else s
  }

  /** The part that runs in PROBE_RTT. */
  function ProbeRttStep(s: Leocc, rs: Sample, env: Env): Leocc {
    if s.probeRttDoneStamp == 0 then SetProbeEnd(s, env)
    else
      var r := if s.roundStart then s.(probeRttRoundDone := true) else s;
      if r.probeRttRoundDone then CheckProbeRttDone(RefreshMinRtt(r, rs, env), env) else r
  }

  /** The part that starts the probe. */
  function EnterProbeRtt(s: Leocc, expired: bool): Leocc {
    if !s.idleRestart && s.mode == Cruise && (expired || s.trigger) then s.(mode := ProbeRtt, probeRttDoneStamp := 0) else s
  }

  function EndIdle(s: Leocc, rs: Sample): Leocc {
    if rs.delivered > 0 then s.(idleRestart := false) else s
  }

  /** `leocc_update_min_rtt`. */
  function UpdateMinRtt(s: Leocc, rs: Sample, env: Env): Leocc {
    var t := EnterProbeRtt(TrackMinRtt(s, rs, env), FilterExpired(s, env));
    EndIdle(if t.mode == ProbeRtt then ProbeRttStep(t, rs, env) else t, rs)
  }

  /** `leocc_update_gains`; the gain of the probing phase depends on the filter in use. */
  function PacingGain(s: Leocc, env: Env): nat {
    match s.mode
    case Startup => HIGH_GAIN
    case Drain => DRAIN_GAIN
    case Cruise => if s.cycleIdx == 0 then env.probeGain else if s.cycleIdx == 1 then LEOCC_UNIT * 3 / 4 else LEOCC_UNIT
    case ProbeRtt => LEOCC_UNIT
  }

  function CwndGain(s: Leocc): nat {
    match s.mode case Startup => HIGH_GAIN case Drain => HIGH_GAIN case Cruise => CWND_GAIN case ProbeRtt => LEOCC_UNIT
  }

  function UpdateGains(s: Leocc, env: Env): Leocc {
    s.(pacingGain := PacingGain(s, env), cwndGain := CwndGain(s))
  }

  /** The trigger is latched and the bandwidth filter updated before the model. */
  function BeforeModel(s: Leocc, rs: Sample, env: Env): Leocc {
    s.(trigger := s.trigger || env.raised,
       bwFilter := if s.mode == Cruise && RoundEnds(s, rs) then Update(s.bwFilter, s.rttCntMaxBw) else s.bwFilter)
  }

  /** `leocc_update_model`, as far as the check for full bandwidth. */
  function Measured(s: Leocc, rs: Sample, env: Env): Leocc {
    CheckFullBw(UpdateCycle(UpdateBw(s, rs, env), env), rs)
  }

  /** The round-trip filter is updated after it. */
  function AfterModel(s: Leocc, rs: Sample): Leocc {
    if rs.rttUs > 0 then s.(rttFilter := Update(s.rttFilter, rs.rttUs)) else s
  }

  /** `leocc_main`: one ACK. */
  function Main(s: Leocc, rs: Sample, env: Env): Leocc {
    var m := UpdateMinRtt(CheckDrain(Measured(BeforeModel(s, rs, env), rs, env), env), rs, env);
    AfterModel(UpdateGains(m, env), rs)
  }

  /** The callbacks: an ACK, the start of a transmission while application limited, the undo of a loss, a timeout. */
  datatype Event = Ack(rs: Sample, env: Env) | TxStart(env: Env) | UndoCwnd | Loss

  function Happen(s: Leocc, e: Event): Leocc {
    match e
    case Ack(rs, env) => Main(s, rs, env)
    case TxStart(env) =>
      var r := s.(idleRestart := true);
      if r.mode == ProbeRtt then CheckProbeRttDone(r, env) else r
    case UndoCwnd => s.(growth := s.growth.(fullBw := 0, cnt := 0))
    case Loss => s.(growth := s.growth.(fullBw := 0), roundStart := true)
  }

  // The trigger of the simulation variant

  const PERIOD: nat := 15000

  /** The trigger window of the simulation: the hundred milliseconds before `offset` in every period, in 32-bit arithmetic. */
  predicate InWindow(relativeTime: nat, offset: nat) {
    (offset - 100) % UINT32 <= relativeTime <= offset
  }

  /** The milliseconds since start, from the difference of two 32-bit clocks times 1000 in 32 bits. */
  function Millis(jiffies: nat, initStamp: nat, hz: nat): nat
    requires hz > 0
  {
    (jiffies - initStamp) % UINT32 * 1000 % UINT32 / hz
  }

  function RelativeTime(jiffies: nat, initStamp: nat, hz: nat): nat
    requires hz > 0
  {
    Millis(jiffies, initStamp, hz) % PERIOD
  }

  /** When the simulation raises the trigger. */
  predicate Raised(jiffies: nat, initStamp: nat, hz: nat, offset: nat)
    requires hz > 0
  {
    InWindow(RelativeTime(jiffies, initStamp, hz), offset)
  }

  /** The 32-bit tick counter some ticks after the start. */
  function Ticked(initStamp: nat, elapsed: nat): nat {
    (initStamp + elapsed) % UINT32
  }

  lemma TickedBack(initStamp: nat, elapsed: nat)
    requires initStamp < UINT32 && elapsed < UINT32
    ensures (Ticked(initStamp, elapsed) - initStamp) % UINT32 == elapsed
  {}

  lemma DivGap(a: nat, b: nat, hz: nat)
    requires hz > 0 && a >= b + hz
    ensures a / hz > b / hz
  {
    var u, w := a / hz, b / hz;
    assert u * hz <= a < u * hz + hz && w * hz <= b;
    assert (w + 1) * hz == w * hz + hz;
    Order(w + 1, u, hz);
  }

  /** At any tick rate and from any start the clock of the simulation is true exactly for the first 4294967 ticks, about 72 minutes
      at a thousand a second: after that the product wraps. */
  lemma SimulationClock(initStamp: nat, elapsed: nat, hz: nat)
    requires initStamp < UINT32 && elapsed < UINT32 && 0 < hz < UINT32
    ensures Millis(Ticked(initStamp, elapsed), initStamp, hz) == elapsed * 1000 / hz <==> elapsed <= 4294967
  {
    hide Ticked;
    TickedBack(initStamp, elapsed);
    var product := elapsed * 1000;
    if elapsed > 4294967 {
      assert product >= product % UINT32 + hz;
      DivGap(product, product % UINT32, hz);
    }
  }

  /** At the tick rates of the kernel the time in the period is then wrong too, on the very next tick. */
  lemma PeriodBreaks(initStamp: nat, hz: nat)
    requires initStamp < UINT32 && hz in {100, 250, 300, 1000}
    ensures RelativeTime(Ticked(initStamp, 4294968), initStamp, hz) != 4294968 * 1000 / hz % 15000
  {
    hide Ticked;
    TickedBack(initStamp, 4294968);
  }

  // When the window is met

  /** The inverse of 125 modulo 2^29. */
  const INVERSE: nat := 115964117

  /** Every multiple of eight is the product at some tick. */
  lemma TicksFor(q: nat) returns (elapsed: nat)
    requires q < UINT32 / 8
    ensures elapsed < UINT32 && elapsed * 1000 % UINT32 == 8 * q
  {
    var wrap := UINT32 / 8;
    var t := q * INVERSE / wrap;
    elapsed := q * INVERSE % wrap;
    assert 125 * INVERSE == 1 + 27 * wrap;
    assert elapsed == q * INVERSE - t * wrap;
    assert elapsed * 1000 == 8 * q + (27 * q - 125 * t) * UINT32;
    Reduced(elapsed * 1000, 8 * q, 27 * q - 125 * t);
  }

  lemma Reduced(a: int, r: nat, k: int)
    requires r < UINT32 && a == r + k * UINT32
    ensures a % UINT32 == r
  {}

  /** The least multiple of eight from `n` on. */
  function Up8(n: nat): (r: nat)
    ensures n <= 8 * r < n + 8
  {
    (n + 7) / 8
  }

  /** Some relative time from `v` on within the window is met. */
  predicate Reachable(v: nat, hz: nat) {
    v < 15000 && 8 <= (15000 - v) * hz && v * hz <= UINT32 - 8
  }

  lemma QuotientOf(r: nat, v: nat, hz: nat)
    requires hz > 0 && v * hz <= r < v * hz + 8 && r < PERIOD * hz
    ensures v <= r / hz < PERIOD && r / hz <= v + 7
  {
    var u := r / hz;
    assert u * hz <= r < u * hz + hz;
    Order(v, u, hz);
    assert (PERIOD - 1) * hz == PERIOD * hz - hz;
    Order(u, PERIOD - 1, hz);
    assert (v + 7) * hz == v * hz + 7 * hz;
    Order(u, v + 7, hz);
  }

  lemma Product(a: nat, b: nat, n: nat)
    requires a <= b
    ensures a * n <= b * n
  {}

  lemma Order(a: nat, b: nat, n: nat)
    requires a * n < b * n + n
    ensures a <= b
  {
    assert (b + 1) * n == b * n + n;
    if a >= b + 1 {
      Product(b + 1, a, n);
    }
  }

  lemma Met(v: nat, initStamp: nat, hz: nat) returns (now: nat)
    requires hz > 0 && initStamp < UINT32 && Reachable(v, hz)
    ensures v <= RelativeTime(now, initStamp, hz) <= v + 7
  {
    var q := EightsFrom(v, hz);
    var elapsed := TicksFor(q);
    now := Ticked(initStamp, elapsed);
    TickedBack(initStamp, elapsed);
    hide Ticked, Reachable;
    QuotientOf(8 * q, v, hz);
  }

  lemma EightsFrom(v: nat, hz: nat) returns (q: nat)
    requires hz > 0 && Reachable(v, hz)
    ensures v * hz <= 8 * q < v * hz + 8 && 8 * q < PERIOD * hz && 8 * q <= UINT32 - 8
  {
    var n := v * hz;
    q := Up8(n);
    assert (PERIOD - v) * hz == PERIOD * hz - n;
    hide Up8;
    BelowPeriod(n, q, hz);
  }

  lemma BelowPeriod(n: nat, q: nat, hz: nat)
    requires n <= 8 * q < n + 8 && n + 8 <= PERIOD * hz
    ensures 8 * q < PERIOD * hz
  {}

  lemma ProductIsEights(elapsed: nat) returns (q: nat)
    ensures elapsed * 1000 % UINT32 == 8 * q
  {
    var product := elapsed * 1000;
    q := 125 * elapsed - UINT32 / 8 * (product / UINT32);
    assert product == UINT32 * (product / UINT32) + product % UINT32;
  }

  lemma OnlyReachable(now: nat, initStamp: nat, hz: nat, v: nat)
    requires hz > 0 && v <= RelativeTime(now, initStamp, hz)
    ensures Reachable(v, hz)
  {
    var q := ProductIsEights((now - initStamp) % UINT32);
    var u := 8 * q / hz;
    var x, m := u % PERIOD, u / PERIOD;
    assert u == Millis(now, initStamp, hz);
    assert u * hz <= 8 * q < u * hz + hz;
    assert u == PERIOD * m + x;
    EightsBelow(q, u, x, m, hz);
    Product(v, x, hz);
    Product(x, u, hz);
    assert (PERIOD - v) * hz == PERIOD * hz - v * hz && (PERIOD - x) * hz == PERIOD * hz - x * hz;
    assert 8 * q <= UINT32 - 8;
  }

  lemma EightsBelow(q: nat, u: nat, x: nat, m: nat, hz: nat)
    requires x < PERIOD && u == PERIOD * m + x && u * hz <= 8 * q < u * hz + hz
    ensures 8 <= (PERIOD - x) * hz
  {
    var n := PERIOD / 8 * (m + 1) * hz;
    assert 8 * n == PERIOD * (m + 1) * hz;
    assert (u + 1) * hz == u * hz + hz;
    Product(u + 1, PERIOD * (m + 1), hz);
    assert q < n;
    assert (PERIOD - x) * hz == PERIOD * (m + 1) * hz - u * hz;
  }

  /** Exactly when the simulation ever raises the trigger, at any tick rate and from any start: the offset must leave room for the
      window before it, and the window must begin before the last relative time that the clock can show. At the tick
      rates of real kernels that means an offset from 100 to 15099. */
  lemma WindowExists(offset: nat, initStamp: nat, hz: nat)
    requires offset < UINT32 && initStamp < UINT32 && hz > 0
    ensures (exists now: nat :: Raised(now, initStamp, hz, offset)) <==> 100 <= offset && Reachable(offset - 100, hz)
    ensures 8 <= hz <= 286331 ==> ((exists now: nat :: Raised(now, initStamp, hz, offset)) <==> 100 <= offset < 15100)
  {
    hide RelativeTime, Reachable;
    if 100 <= offset {
      assert (offset - 100) % UINT32 == offset - 100;
      if Reachable(offset - 100, hz) {
        var now := Met(offset - 100, initStamp, hz);
        assert Raised(now, initStamp, hz, offset);
      }
      forall now: nat | Raised(now, initStamp, hz, offset) ensures Reachable(offset - 100, hz) {
        OnlyReachable(now, initStamp, hz, offset - 100);
      }
      UsualRates(offset - 100, hz);
    } else {
      assert (offset - 100) % UINT32 == offset - 100 + UINT32;
    }
  }

  lemma UsualRates(v: nat, hz: nat)
    requires hz > 0
    ensures 8 <= hz <= 286331 ==> (Reachable(v, hz) <==> v < PERIOD)
  {
    if 8 <= hz <= 286331 && v < PERIOD {
      Product(1, PERIOD - v, hz);
      Product(v, PERIOD - 1, hz);
    }
  }
}
