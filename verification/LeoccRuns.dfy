/** Properties of every run of the LeoCC state machine. */
module LeoccRuns {
  import opened Arithmetic
  import opened LeoccMath
  import opened LeoccKalman
  import opened LeoccModel
  import opened Widths

  function Run(s: Leocc, es: seq<Event>): Leocc
    decreases |es|
  {
    if es == [] then s else Run(Happen(s, es[0]), es[1..])
  }

  /** Full bandwidth has been reached exactly outside STARTUP, and the 2-bit counter has room for one more. */
  predicate Inv(s: Leocc) {
    (s.growth.reached <==> s.mode != Startup) && (!s.growth.reached ==> s.growth.cnt <= 2) && s.cycleIdx < CYCLE_LEN
  }

  /** A reconfiguration that has been noticed outside STARTUP and not been answered. */
  predicate Pending(s: Leocc) {
    s.trigger && s.mode != Startup
  }

  /** The answer: PROBE_RTT ends in STARTUP, the growth check starts over and the bandwidth filter is reset. */
  predicate Answers(s: Leocc, t: Leocc) {
    s.mode == ProbeRtt && t.mode == Startup && t.trigger && t.growth == Growth(0, 0, false) && t.bw == t.reconfMaxBw
  }

  // One ACK, part by part

  /** The fields that the measurements leave alone. */
  predicate SameControl(s: Leocc, t: Leocc) {
    && t.mode == s.mode && t.idleRestart == s.idleRestart && t.trigger == s.trigger
    && t.probeRttDoneStamp == s.probeRttDoneStamp && t.probeRttRoundDone == s.probeRttRoundDone && t.minRttStamp == s.minRttStamp
  }

  lemma BwKeeps(s: Leocc, rs: Sample, env: Env)
    ensures var t := UpdateBw(s, rs, env);
            && SameControl(s, t) && t.growth == s.growth && t.cycleIdx == s.cycleIdx
            && t.roundStart == (Usable(rs) && RoundEnds(s, rs)) && t.bw == if Filtered(s, rs) then env.filtered else s.bw
  {
    hide BwSample, Before;
  }

  lemma CheckKeeps(s: Leocc, rs: Sample, env: Env)
    requires s.cycleIdx < CYCLE_LEN && (s.growth.reached || s.growth.cnt <= 2)
    ensures var t := CheckFullBw(UpdateCycle(s, env), rs);
            && SameControl(s, t) && t.cycleIdx < CYCLE_LEN && t.bw == s.bw && t.roundStart == s.roundStart
            && t.growth == (if s.roundStart && !rs.appLimited then Grow(s.growth, s.bw) else s.growth)
            && (t.growth.reached || t.growth.cnt <= 2) && (s.growth.reached ==> t.growth == s.growth)
  {
    hide Threshold;
  }

  lemma MeasuredKeeps(s: Leocc, rs: Sample, env: Env)
    requires Inv(s)
    ensures var t := Measured(BeforeModel(s, rs, env), rs, env);
            && SameControl(s.(trigger := s.trigger || env.raised), t)
            && t.cycleIdx < CYCLE_LEN && (s.growth.reached ==> t.growth == s.growth)
            && (t.growth.reached || t.growth.cnt <= 2) && t.roundStart == (Usable(rs) && RoundEnds(s, rs))
            && t.bw == (if Filtered(s, rs) then env.filtered else s.bw)
            && t.growth == if t.roundStart && !rs.appLimited then Grow(s.growth, t.bw) else s.growth
  {
    var b := BeforeModel(s, rs, env);
    assert SameControl(s.(trigger := s.trigger || env.raised), b) && b.bw == s.bw && b.nextRttDelivered == s.nextRttDelivered by { hide Update; }
    hide BeforeModel, UpdateBw, UpdateCycle, CheckFullBw, Grow, BwSample, Before;
    assert b.cycleIdx == s.cycleIdx && b.growth == s.growth by { BeforeSame(s, rs, env); }
    BwKeeps(b, rs, env);
    CheckKeeps(UpdateBw(b, rs, env), rs, env);
  }

  lemma BeforeSame(s: Leocc, rs: Sample, env: Env)
    ensures var b := BeforeModel(s, rs, env); b.cycleIdx == s.cycleIdx && b.growth == s.growth
  {
    hide Update;
  }

  lemma DrainKeeps(s: Leocc, env: Env)
    requires s.cycleIdx < CYCLE_LEN && (s.mode != Startup ==> s.growth.reached) && (s.growth.reached || s.growth.cnt <= 2)
    ensures var t := CheckDrain(s, env);
            && Inv(t) && t.idleRestart == s.idleRestart && t.growth == s.growth && t.probeRttDoneStamp == s.probeRttDoneStamp
            && (t.mode == Startup <==> !s.growth.reached)
            && (t.mode == ProbeRtt <==> s.mode == ProbeRtt)
            && (s.mode != Startup ==> t.trigger == s.trigger)
            && t.roundStart == s.roundStart && t.probeRttRoundDone == s.probeRttRoundDone && t.minRttStamp == s.minRttStamp
            && (s.mode == ProbeRtt || (s.mode == Cruise) ==> t == s)
  {
    hide Inflight;
  }

  lemma ProbeDoneKeeps(s: Leocc, env: Env)
    requires Inv(s) && s.mode == ProbeRtt
    ensures var t := CheckProbeRttDone(s, env);
            && Inv(t) && t.trigger == s.trigger && t.idleRestart == s.idleRestart
            && (t.mode == Startup ==> Answers(s, t))
            && (t.mode == Cruise ==> !t.trigger) && t.mode != Drain
  {
    hide Before;
  }

  lemma MinRttKeeps(s: Leocc, rs: Sample, env: Env)
    requires Inv(s)
    ensures var t := UpdateMinRtt(s, rs, env);
            && Inv(t) && t.trigger == s.trigger
            && (t.mode == Startup && s.mode != Startup ==> Answers(s, t))
            && (t.mode == Cruise && t.trigger ==> s.idleRestart && s.mode == Cruise)
            && (s.mode == Startup ==> t.mode == Startup && t.growth == s.growth)
  {
    hide CheckProbeRttDone, FilterExpired, Bdp, Before, RefreshMinRtt, TrackMinRtt;
    TrackSame(s, rs, env);
    var t := EnterProbeRtt(TrackMinRtt(s, rs, env), FilterExpired(s, env));
    if t.mode == ProbeRtt && t.probeRttDoneStamp != 0 {
      var r := if t.roundStart then t.(probeRttRoundDone := true) else t;
      RefreshKeeps(r, rs, env);
      ProbeDoneKeeps(RefreshMinRtt(r, rs, env), env);
    }
  }

  lemma RefreshKeeps(s: Leocc, rs: Sample, env: Env)
    ensures var t := RefreshMinRtt(s, rs, env);
            t == s.(minRtt := t.minRtt, minRttStamp := t.minRttStamp) && (Inv(s) ==> Inv(t))
  {
    hide Before;
  }

  /** One ACK. */
  lemma MainKeeps(s: Leocc, rs: Sample, env: Env)
    requires Inv(s)
    ensures var t := Main(s, rs, env);
            && Inv(t)
            && (t.mode == Startup && s.mode != Startup ==> Answers(s, t))
            && (s.mode != Startup ==> t.trigger == (s.trigger || env.raised))
            && (t.mode == Cruise && t.trigger ==> s.idleRestart)
  {
    hide Measured, CheckDrain, UpdateMinRtt, BeforeModel, UpdateGains, Update, Answers;
    var m := Measured(BeforeModel(s, rs, env), rs, env);
    MeasuredKeeps(s, rs, env);
    DrainKeeps(m, env);
    var d := CheckDrain(m, env);
    MinRttKeeps(d, rs, env);
    var u := UpdateMinRtt(d, rs, env);
    GainsOnly(u, rs, env);
    AnswersSame(s, d, u, Main(s, rs, env));
  }

  lemma GainsOnly(u: Leocc, rs: Sample, env: Env)
    ensures var t := AfterModel(UpdateGains(u, env), rs);
            && t.mode == u.mode && t.trigger == u.trigger && t.growth == u.growth && t.bw == u.bw && t.reconfMaxBw == u.reconfMaxBw
            && t.cycleIdx == u.cycleIdx && t.idleRestart == u.idleRestart && t.probeRttDoneStamp == u.probeRttDoneStamp
  {
    hide Update;
  }

  lemma AnswersSame(s: Leocc, d: Leocc, u: Leocc, t: Leocc)
    requires d.mode == ProbeRtt ==> s.mode == ProbeRtt
    requires t.mode == u.mode && t.trigger == u.trigger && t.growth == u.growth && t.bw == u.bw && t.reconfMaxBw == u.reconfMaxBw
    ensures Answers(d, u) ==> Answers(s, t)
  {}

  /** Every callback: the invariant is kept, STARTUP is entered only as an answer to the trigger, and the trigger stays up. */
  lemma HappenKeeps(s: Leocc, e: Event)
    requires Inv(s)
    ensures var t := Happen(s, e);
            && Inv(t)
            && (t.mode == Startup && s.mode != Startup ==> Answers(s, t))
            && (s.mode != Startup && (s.trigger || (e.Ack? && e.env.raised)) ==> t.trigger)
  {
    hide Main, CheckProbeRttDone;
    match e
    case Ack(rs, env) => MainKeeps(s, rs, env);
    case TxStart(env) => if s.mode == ProbeRtt { ProbeDoneKeeps(s.(idleRestart := true), env); }
    case _ =>
  }

  lemma {:induction false} RunInv(s: Leocc, es: seq<Event>)
    requires Inv(s)
    ensures Inv(Run(s, es))
    decreases |es|
  {
    if es != [] {
      hide Happen, Inv;
      HappenKeeps(s, es[0]);
      RunInv(Happen(s, es[0]), es[1..]);
    }
  }

  /** From the start of a connection on: full bandwidth is reached exactly outside STARTUP, after every callback. */
  lemma FromStart(delivered: nat, jiffies: nat, minRtt: nat, es: seq<Event>)
    ensures var s := Run(Init(delivered, jiffies, minRtt), es);
            (s.growth.reached <==> s.mode != Startup) && (!s.growth.reached ==> s.growth.cnt <= 2)
  {
    hide Run;
    assert Inv(Init(delivered, jiffies, minRtt));
    RunInv(Init(delivered, jiffies, minRtt), es);
  }

  /** A reconfiguration is never lost: over every run, once one is pending it is still pending at the end, or some callback on
      the way answered it while it was. */
  lemma {:induction false} NeverLost(s: Leocc, es: seq<Event>)
    requires Inv(s) && Pending(s)
    ensures Pending(Run(s, es)) ||
            exists k | 0 <= k < |es| :: Pending(Run(s, es[..k])) && Answers(Run(s, es[..k]), Happen(Run(s, es[..k]), es[k]))
    decreases |es|
  {
    if es != [] {
      hide Happen, Inv, Answers;
      var t, rest := Happen(s, es[0]), es[1..];
      HappenKeeps(s, es[0]);
      if t.mode == Startup {
        assert es[..0] == [] && Run(s, es[..0]) == s;
      } else {
        NeverLost(t, rest);
        if !Pending(Run(t, rest)) {
          var k :| 0 <= k < |rest| && Pending(Run(t, rest[..k])) && Answers(Run(t, rest[..k]), Happen(Run(t, rest[..k]), rest[k]));
          RunShift(s, es, k);
        }
      }
    }
  }

  /** A trigger raised at any ACK outside STARTUP becomes pending, unless that very ACK answers it. */
  lemma RaisedIsPending(s: Leocc, rs: Sample, env: Env)
    requires Inv(s) && s.mode != Startup && env.raised
    ensures Pending(Main(s, rs, env)) || Answers(s, Main(s, rs, env))
  {
    MainKeeps(s, rs, env);
  }

  // The answer comes

  /** In CRUISE, two ACKs that deliver something are enough to start the probe. */
  lemma ProbeStarts(s: Leocc, rs1: Sample, env1: Env, rs2: Sample, env2: Env)
    requires Inv(s) && Pending(s) && s.mode == Cruise && rs1.delivered > 0
    ensures Main(Main(s, rs1, env1), rs2, env2).mode != Cruise
  {
    hide Main;
    MainKeeps(s, rs1, env1);
    IdleEnds(s, rs1, env1);
    MainKeeps(Main(s, rs1, env1), rs2, env2);
  }

  lemma IdleEnds(s: Leocc, rs: Sample, env: Env)
    requires rs.delivered > 0
    ensures !Main(s, rs, env).idleRestart
  {
    hide Measured, CheckDrain, BeforeModel, UpdateGains, Update, TrackMinRtt, ProbeRttStep, FilterExpired;
    var d := CheckDrain(Measured(BeforeModel(s, rs, env), rs, env), env);
    GainsOnly(UpdateMinRtt(d, rs, env), rs, env);
  }

  /** In PROBE_RTT with its end time set, the ACK that ends a round trip after that time answers. */
  lemma ProbeEnds(s: Leocc, rs: Sample, env: Env)
    requires Inv(s) && Pending(s) && s.mode == ProbeRtt && s.probeRttDoneStamp != 0
    requires Usable(rs) && RoundEnds(s, rs) && After(env.jiffies, s.probeRttDoneStamp)
    ensures Answers(s, Main(s, rs, env))
  {
    hide Measured, CheckDrain, BeforeModel, UpdateGains, Update, Answers, UpdateMinRtt, RoundEnds, Before;
    var m := Measured(BeforeModel(s, rs, env), rs, env);
    MeasuredKeeps(s, rs, env);
    DrainKeeps(m, env);
    var d := CheckDrain(m, env);
    MinRttEnds(d, rs, env);
    GainsOnly(UpdateMinRtt(d, rs, env), rs, env);
    AnswersSame(s, d, UpdateMinRtt(d, rs, env), Main(s, rs, env));
  }

  lemma MinRttEnds(d: Leocc, rs: Sample, env: Env)
    requires Inv(d) && d.mode == ProbeRtt && d.trigger && d.roundStart && d.probeRttDoneStamp != 0
    requires After(env.jiffies, d.probeRttDoneStamp)
    ensures Answers(d, UpdateMinRtt(d, rs, env))
  {
    hide FilterExpired, Bdp, Before;
  }

  /** How far a pending reconfiguration is from its answer: DRAIN, CRUISE with and without an idle restart, PROBE_RTT before and
      after its end time is set. */
  function Phase(s: Leocc): nat {
    match s.mode
    case Startup => 5
    case Drain => 4
    case Cruise => if s.idleRestart then 3 else 2
    case ProbeRtt => if s.probeRttDoneStamp == 0 then 1 else 0
  }

  /** The end time that PROBE_RTT would set. */
  function ProbeEnd(env: Env): nat {
    (env.jiffies + PROBE_RTT_MODE_MS * env.hz / 1000) % UINT32
  }

  /** An ACK that takes the state one phase on: in DRAIN the flight has drained, in CRUISE something is delivered after an idle restart,
      in PROBE_RTT the flight is down to the least window, and then the end time has passed and a round trip ends. */
  predicate Helps(s: Leocc, e: Event) {
    e.Ack? &&
    match s.mode
    case Startup => false
    case Drain => e.env.inFlightAtEdt <= InflightTarget(Measured(BeforeModel(s, e.rs, e.env), e.rs, e.env), e.env)
    case Cruise => s.idleRestart ==> e.rs.delivered > 0
    case ProbeRtt =>
      if s.probeRttDoneStamp == 0 then e.env.inFlight <= CWND_MIN_TARGET && ProbeEnd(e.env) != 0
      else Usable(e.rs) && RoundEnds(s, e.rs) && After(e.env.jiffies, s.probeRttDoneStamp)
  }

  /** In every state some ACK helps. */
  lemma SomeAckHelps(s: Leocc) returns (e: Event)
    requires s.mode != Startup
    ensures Helps(s, e)
  {
    var now := (s.probeRttDoneStamp + 1) % UINT32;
    var rs := Sample(1, 1, s.nextRttDelivered, 1, false, false);
    var env := Env(if s.mode == ProbeRtt && s.probeRttDoneStamp == 0 then 0 else now, 1000, 0, 0, 0, 0, 0, 0, false, false, 0, 0);
    e := Ack(rs, env);
    hide Measured, BeforeModel, InflightTarget;
    assert (s.nextRttDelivered - s.nextRttDelivered) % UINT32 == 0;
    JustAfter(s.probeRttDoneStamp);
  }

  lemma JustAfter(stamp: nat)
    ensures After((stamp + 1) % UINT32, stamp)
  {
    var next := (stamp + 1) % UINT32;
    var q := (stamp + 1) / UINT32;
    assert stamp - next == -1 + UINT32 * q;
    assert (-1 + UINT32 * q) % UINT32 == UINT32 - 1 by { MinusOne(q); }
  }

  lemma {:induction false} MinusOne(q: nat)
    ensures (-1 + UINT32 * q) % UINT32 == UINT32 - 1
  {
    if q > 0 {
      MinusOne(q - 1);
      assert -1 + UINT32 * q == (-1 + UINT32 * (q - 1)) + UINT32;
    }
  }

  /** `leocc_update_min_rtt` never takes a pending reconfiguration back. */
  lemma MinRttPhase(d: Leocc, rs: Sample, env: Env)
    requires Inv(d) && Pending(d)
    ensures var t := UpdateMinRtt(d, rs, env);
            || Answers(d, t)
            || (&& Pending(t) && Phase(t) <= Phase(d)
                && (d.mode == Cruise && (d.idleRestart ==> rs.delivered > 0) ==> Phase(t) < Phase(d))
                && (d.mode == ProbeRtt && d.probeRttDoneStamp == 0 && env.inFlight <= CWND_MIN_TARGET && ProbeEnd(env) != 0 ==> Phase(t) == 0))
  {
    hide FilterExpired, Bdp, Before, CheckProbeRttDone, RefreshMinRtt, TrackMinRtt;
    TrackSame(d, rs, env);
    var t := EnterProbeRtt(TrackMinRtt(d, rs, env), FilterExpired(d, env));
    if t.mode == ProbeRtt && t.probeRttDoneStamp != 0 {
      var r := if t.roundStart then t.(probeRttRoundDone := true) else t;
      RefreshKeeps(r, rs, env);
      DonePhase(RefreshMinRtt(r, rs, env), env);
    }
  }

  lemma TrackSame(s: Leocc, rs: Sample, env: Env)
    ensures var t := TrackMinRtt(s, rs, env); t == s.(minRtt := t.minRtt, minRttStamp := t.minRttStamp)
  {
    hide FilterExpired;
  }

  lemma DonePhase(s: Leocc, env: Env)
    requires Pending(s) && s.mode == ProbeRtt && s.probeRttDoneStamp != 0
    ensures CheckProbeRttDone(s, env) == s || Answers(s, CheckProbeRttDone(s, env))
  {
    hide Before;
  }

  lemma DrainPhase(m: Leocc, env: Env)
    requires Inv(m) && Pending(m)
    ensures var d := CheckDrain(m, env);
            && Inv(d) && Pending(d) && Phase(d) <= Phase(m)
            && (m.mode == Drain && env.inFlightAtEdt <= InflightTarget(m, env) ==> Phase(d) < Phase(m))
            && (m.mode != Drain ==> d == m) && (d.mode == ProbeRtt ==> m.mode == ProbeRtt)
  {
    hide InflightTarget;
  }

  /** One ACK while a reconfiguration is pending: it is answered, or the phase does not go up, and goes down if the ACK helps; in the
      last phase such an ACK answers. */
  lemma AckPhase(s: Leocc, rs: Sample, env: Env)
    requires Inv(s) && Pending(s)
    ensures var t := Main(s, rs, env);
            || Answers(s, t)
            || (Pending(t) && Phase(t) <= Phase(s) && (Helps(s, Ack(rs, env)) ==> Phase(t) < Phase(s)))
  {
    if s.mode == ProbeRtt && s.probeRttDoneStamp != 0 && Helps(s, Ack(rs, env)) {
      ProbeEnds(s, rs, env);
    } else {
      hide Measured, CheckDrain, BeforeModel, UpdateGains, Update, Answers, UpdateMinRtt, RoundEnds, Before, InflightTarget;
      var m := Measured(BeforeModel(s, rs, env), rs, env);
      MeasuredKeeps(s, rs, env);
      DrainPhase(m, env);
      var d := CheckDrain(m, env);
      MinRttPhase(d, rs, env);
      GainsOnly(UpdateMinRtt(d, rs, env), rs, env);
      AnswersSame(s, d, UpdateMinRtt(d, rs, env), Main(s, rs, env));
    }
  }

  /** The ACKs of a run that help in the states they find. */
  function HelpfulAcks(s: Leocc, es: seq<Event>): nat
    decreases |es|
  {
    if es == [] then 0 else (if Helps(s, es[0]) then 1 else 0) + HelpfulAcks(Happen(s, es[0]), es[1..])
  }

  lemma EventPhase(s: Leocc, e: Event)
    requires Inv(s) && Pending(s) && !e.TxStart?
    ensures var t := Happen(s, e); Answers(s, t) || (Pending(t) && Phase(t) <= Phase(s) && (Helps(s, e) ==> Phase(t) < Phase(s)))
  {
    hide Main, Answers;
    if e.Ack? {
      AckPhase(s, e.rs, e.env);
    }
  }

  /** The answer comes: every run without an idle restart that holds more helpful ACKs than the phase of the pending reconfiguration,
      so at most five, with anything else in between, holds its answer. */
  lemma {:induction false} AnswerComes(s: Leocc, es: seq<Event>)
    requires Inv(s) && Pending(s) && forall i | 0 <= i < |es| :: !es[i].TxStart?
    requires HelpfulAcks(s, es) > Phase(s)
    ensures exists k | 0 <= k < |es| :: Pending(Run(s, es[..k])) && Answers(Run(s, es[..k]), Happen(Run(s, es[..k]), es[k]))
    decreases |es|
  {
    hide Happen, Inv, Answers, Helps, Phase, Pending;
    var t, rest := Happen(s, es[0]), es[1..];
    HappenKeeps(s, es[0]);
    EventPhase(s, es[0]);
    if Answers(s, t) {
      assert es[..0] == [] && Run(s, es[..0]) == s;
    } else {
      AnswerComes(t, rest);
      var k :| 0 <= k < |rest| && Pending(Run(t, rest[..k])) && Answers(Run(t, rest[..k]), Happen(Run(t, rest[..k]), rest[k]));
      RunShift(s, es, k);
    }
  }

  lemma RunShift(s: Leocc, es: seq<Event>, k: nat)
    requires k + 1 < |es|
    ensures Run(s, es[..k + 1]) == Run(Happen(s, es[0]), es[1..][..k]) && es[k + 1] == es[1..][k]
  {
    hide Happen;
    assert es[..k + 1][1..] == es[1..][..k] && es[..k + 1][0] == es[0];
  }

  // The minimum round-trip time and the gains

  /** While the window has not expired and no probe is on, the minimum is that of the old one and the sample. */
  lemma MinRttIsMinimum(s: Leocc, rs: Sample, env: Env)
    requires !FilterExpired(s, env) && s.minRtt < UINT32
    requires s.mode != ProbeRtt && !(s.mode == Cruise && s.trigger && !s.idleRestart)
    ensures var t := UpdateMinRtt(s, rs, env);
            && t.minRtt <= s.minRtt && (rs.rttUs >= 0 ==> t.minRtt <= rs.rttUs)
            && (t.minRtt == s.minRtt || t.minRtt == rs.rttUs)
  {
    hide FilterExpired, ProbeRttStep;
  }

  /** The pacing gains of the eight phases of a cruise cycle. */
  function CycleGains(s: Leocc, env: Env, from: nat): nat
    requires from <= CYCLE_LEN
    decreases CYCLE_LEN - from
  {
    if from == CYCLE_LEN then 0 else PacingGain(s.(mode := Cruise, cycleIdx := from), env) + CycleGains(s, env, from + 1)
  }

  /** With the probing gain of 5/4 a whole cruise cycle paces exactly at the estimated bandwidth; with 21/20 below it. */
  lemma CycleIsNeutral(s: Leocc, env: Env)
    ensures env.probeGain == LEOCC_UNIT * 5 / 4 ==> CycleGains(s, env, 0) == CYCLE_LEN * LEOCC_UNIT
    ensures env.probeGain == LEOCC_UNIT * 21 / 20 ==> CycleGains(s, env, 0) < CYCLE_LEN * LEOCC_UNIT
  {
    assert CycleGains(s, env, 8) == 0;
    assert CycleGains(s, env, 5) == 3 * LEOCC_UNIT by { assert CycleGains(s, env, 7) == LEOCC_UNIT; assert CycleGains(s, env, 6) == 2 * LEOCC_UNIT; }
    assert CycleGains(s, env, 3) == 5 * LEOCC_UNIT by { assert CycleGains(s, env, 4) == 4 * LEOCC_UNIT; }
    assert CycleGains(s, env, 2) == 6 * LEOCC_UNIT;
  }

  // STARTUP ends

  /** Up to this bandwidth 5/4 of it fits in 32 bits. */
  const GROWTH_LIMIT: nat := 3435973836

  /** A quarter more, rounded down. */
  function Quarter(bw: nat): nat {
    bw + bw / 4
  }

  lemma ThresholdIsHigher(z: nat)
    requires z < UINT32
    ensures Threshold(z) > z <==> 4 <= z <= GROWTH_LIMIT
    ensures z <= GROWTH_LIMIT ==> Threshold(z) == Quarter(z)
  {
    QuarterMore(z);
  }

  lemma QuarterMore(z: nat)
    ensures z * FULL_BW_THRESH / LEOCC_UNIT == z + z / 4
  {}

  /** How often a bandwidth can grow by a quarter, rounded down, before it exceeds `top`. */
  function Steps(bw: nat, top: nat): nat
    requires bw >= 4
    decreases if bw > top then 0 else top - bw + 1
  {
    if bw > top then 0 else 1 + Steps(Quarter(bw), top)
  }

  lemma {:induction false} StepsMonotone(a: nat, b: nat, top: nat)
    requires 4 <= a <= b
    ensures Steps(b, top) <= Steps(a, top)
    decreases if a > top then 0 else top - a + 1
  {
    if b <= top {
      StepsMonotone(Quarter(a), Quarter(b), top);
    }
  }

  /** Four quarters more are at least twice as much. */
  lemma FourDouble(bw: nat)
    requires bw >= 4
    ensures Quarter(Quarter(Quarter(Quarter(bw)))) >= 2 * bw
  {
    var b1, b2, b3 := Quarter(bw), Quarter(Quarter(bw)), Quarter(Quarter(Quarter(bw)));
    assert 4 * b1 >= 5 * bw - 3 && 4 * b2 >= 5 * b1 - 3 && 4 * b3 >= 5 * b2 - 3 && 4 * Quarter(b3) >= 5 * b3 - 3;
  }

  lemma FourSteps(bw: nat, top: nat)
    requires bw >= 4
    ensures Steps(bw, top) <= 4 + Steps(2 * bw, top)
  {
    FourDouble(bw);
    var b1, b2, b3, b4 := Quarter(bw), Quarter(Quarter(bw)), Quarter(Quarter(Quarter(bw))), Quarter(Quarter(Quarter(Quarter(bw))));
    OneStep(bw, top);
    OneStep(b1, top);
    OneStep(b2, top);
    OneStep(b3, top);
    hide Steps, Quarter;
    StepsMonotone(2 * bw, b4, top);
  }

  lemma OneStep(bw: nat, top: nat)
    requires bw >= 4
    ensures Quarter(bw) >= 4 && Steps(bw, top) <= 1 + Steps(Quarter(bw), top)
  {}

  /** The number of steps is logarithmic: four for each doubling. */
  lemma {:induction false} StepsLogarithmic(bw: nat, top: nat, k: nat)
    requires bw >= 4 && bw * Pow2(k) > top
    ensures Steps(bw, top) <= 4 * k
    decreases k
  {
    if k > 0 {
      FourSteps(bw, top);
      assert bw * Pow2(k) == 2 * bw * Pow2(k - 1);
      StepsLogarithmic(2 * bw, top, k - 1);
    }
  }

  /** How many more growth checks can pass before the bandwidth counts as full, if it stays below `top`: three for each
      step of growth that is left, and those of the current count. */
  function Rank(g: Growth, top: nat): int
    requires g.fullBw >= 4
  {
    3 * Steps(Quarter(g.fullBw), top) + 3 - g.cnt
  }

  /** Every check makes progress: the bandwidth grew by a step or the count did. */
  lemma GrowProgresses(g: Growth, maxBw: nat, top: nat)
    requires !g.reached && g.cnt <= 2 && 4 <= g.fullBw <= top <= GROWTH_LIMIT && maxBw <= top
    ensures var h := Grow(g, maxBw);
            h.reached || (h.cnt <= 2 && 4 <= h.fullBw <= top && Rank(h, top) < Rank(g, top))
  {
    hide Threshold, Steps;
    ThresholdIsHigher(g.fullBw);
    var next := Quarter(g.fullBw);
    if maxBw >= next {
      StepTaken(next, maxBw, top);
    }
  }

  lemma StepTaken(next: nat, bw: nat, top: nat)
    requires 4 <= next <= bw <= top
    ensures Steps(Quarter(bw), top) < Steps(next, top)
  {
    StepsMonotone(Quarter(next), Quarter(bw), top);
  }

  /** `n` growth checks at a constant bandwidth. */
  function GrowAll(g: Growth, z: nat, n: nat): Growth
    decreases n
  {
    if n == 0 then g else GrowAll(Grow(g, z), z, n - 1)
  }

  lemma {:induction false} GrowStuck(g: Growth, z: nat, n: nat)
    requires !g.reached && g.cnt == 0 && g.fullBw == z && Threshold(z) <= z
    ensures GrowAll(g, z, n) == g
    decreases n
  {
    if n > 0 {
      GrowStuck(g, z, n - 1);
    }
  }

  lemma {:induction false} GrowDone(g: Growth, z: nat, n: nat)
    requires g.reached
    ensures GrowAll(g, z, n) == g
    decreases n
  {
    if n > 0 {
      GrowDone(g, z, n - 1);
    }
  }

  /** At a constant bandwidth STARTUP needs four growth checks, and they are enough exactly if the bandwidth is at least 4 (below
      that 5/4 of it rounds back to itself) and 5/4 of it fits in 32 bits. */
  lemma ConstantBandwidth(z: nat, n: nat)
    requires z < UINT32
    ensures GrowAll(Growth(0, 0, false), z, n).reached <==> n >= 4 && 4 <= z <= GROWTH_LIMIT
  {
    ThresholdIsHigher(z);
    assert Threshold(0) == 0;
    hide Threshold;
    if n > 0 {
      var g := Growth(z, 0, false);
      assert Grow(Growth(0, 0, false), z) == g;
      if Threshold(z) <= z {
        GrowStuck(g, z, n - 1);
      } else {
        var g1, g2, g3 := Growth(z, 1, false), Growth(z, 2, false), Growth(z, 3, true);
        assert Grow(g, z) == g1 && Grow(g1, z) == g2 && Grow(g2, z) == g3;
        if n >= 4 {
          GrowDone(g3, z, n - 4);
          assert GrowAll(g2, z, n - 3) == g3;
          assert GrowAll(g1, z, n - 2) == g3;
        } else {
          assert GrowAll(g, z, 0) == g && GrowAll(g, z, 1) == GrowAll(g1, z, 0) == g1;
          assert GrowAll(g1, z, 1) == GrowAll(g2, z, 0) == g2;
          assert GrowAll(g, z, 2) == GrowAll(g1, z, 1);
        }
      }
    }
  }

  /** An ACK whose sample starts a round and is not application limited. */
  predicate Counts(s: Leocc, e: Event) {
    e.Ack? && Usable(e.rs) && RoundEnds(s, e.rs) && !e.rs.appLimited
  }

  /** An ACK whose filtered sample and maximum stay below `top`. */
  predicate Bounded(s: Leocc, e: Event, top: nat) {
    e.Ack? && FilterContract(s, e.rs, e.env.filtered) && (Filtered(s, e.rs) ==> BwSample(e.rs) % UINT32 <= top)
  }

  function Rounds(s: Leocc, es: seq<Event>): nat
    decreases |es|
  {
    if es == [] then 0 else (if Counts(s, es[0]) then 1 else 0) + Rounds(Happen(s, es[0]), es[1..])
  }

  /** Nothing but bounded ACKs, and STARTUP throughout. */
  predicate StaysInStartup(s: Leocc, es: seq<Event>, top: nat)
    decreases |es|
  {
    s.mode == Startup && (es == [] || (Bounded(s, es[0], top) && StaysInStartup(Happen(s, es[0]), es[1..], top)))
  }

  /** In STARTUP an ACK changes the growth check only by `Grow`, and leaves STARTUP when it is done. */
  lemma StartupAck(s: Leocc, e: Event, top: nat)
    requires Inv(s) && s.mode == Startup && Bounded(s, e, top) && s.bw <= top && Happen(s, e).mode == Startup
    ensures var t := Happen(s, e);
            && Inv(t) && t.bw <= top
            && t.growth == if Counts(s, e) then Grow(s.growth, t.bw) else s.growth
  {
    hide CheckDrain, UpdateMinRtt, UpdateGains, Update, Answers, BwSample, Before, Grow, Measured, BeforeModel;
    var m := Measured(BeforeModel(s, e.rs, e.env), e.rs, e.env);
    MeasuredKeeps(s, e.rs, e.env);
    DrainKeeps(m, e.env);
    var d := CheckDrain(m, e.env);
    MinRttKeeps(d, e.rs, e.env);
    HappenKeeps(s, e);
    GainsOnly(UpdateMinRtt(d, e.rs, e.env), e.rs, e.env);
    if m.growth.reached {
      NotAnAnswer(d, UpdateMinRtt(d, e.rs, e.env));
    } else {
      StillStartup(m, e.rs, e.env);
    }
  }

  lemma NotAnAnswer(s: Leocc, t: Leocc)
    requires s.mode != ProbeRtt
    ensures !Answers(s, t)
  {}

  lemma StillStartup(m: Leocc, rs: Sample, env: Env)
    requires m.mode == Startup && !m.growth.reached
    ensures CheckDrain(m, env) == m
    ensures var t := UpdateMinRtt(m, rs, env); t.growth == m.growth && t.bw == m.bw
  {
    hide FilterExpired, ProbeRttStep, InflightTarget;
  }

  /** STARTUP does not last: while the measured bandwidth stays below `top` and once it has been seen to be at least 4, no run
      stays in STARTUP for as many counting rounds as its rank. */
  lemma {:induction false} StartupEnds(s: Leocc, es: seq<Event>, top: nat)
    requires Inv(s) && s.bw <= top && 4 <= s.growth.fullBw <= top <= GROWTH_LIMIT
    requires StaysInStartup(s, es, top)
    ensures Rounds(s, es) < Rank(s.growth, top)
    decreases |es|
  {
    if es != [] {
      hide Happen, Bounded, Counts, Grow, Steps;
      StartupAck(s, es[0], top);
      var t := Happen(s, es[0]);
      if Counts(s, es[0]) {
        GrowProgresses(s.growth, t.bw, top);
      }
      StartupEnds(t, es[1..], top);
    }
  }

  /** That number is logarithmic in the bandwidth: at most twelve rounds for each doubling from the last measured bandwidth to
      `top`, and two more; so never more than 362. */
  lemma StartupRounds(s: Leocc, es: seq<Event>, top: nat, k: nat)
    requires Inv(s) && s.bw <= top && 4 <= s.growth.fullBw <= top <= GROWTH_LIMIT && StaysInStartup(s, es, top)
    ensures s.growth.fullBw * Pow2(k) > top ==> Rounds(s, es) <= 12 * k + 2
    ensures Rounds(s, es) <= 362
  {
    hide Steps, Pow2, Rounds, StaysInStartup, Inv;
    StartupEnds(s, es, top);
    if s.growth.fullBw * Pow2(k) > top {
      StepsLeft(s.growth.fullBw, top, k);
    }
    ThirtyEnough(s.growth.fullBw);
    StepsLeft(s.growth.fullBw, top, 30);
  }

  lemma StepsLeft(bw: nat, top: nat, k: nat)
    requires bw >= 4 && bw * Pow2(k) > top
    ensures Steps(Quarter(bw), top) <= 4 * k
  {
    hide Steps, Pow2;
    StepsMonotone(bw, Quarter(bw), top);
    StepsLogarithmic(bw, top, k);
  }

  lemma ThirtyEnough(bw: nat)
    requires bw >= 4
    ensures bw * Pow2(30) >= UINT32
  {
    hide Pow2;
    ThirtyDoublings();
  }

  /** Every counting round finds a maximum of at least four. */
  predicate Measurable(s: Leocc, es: seq<Event>)
    decreases |es|
  {
    es == [] || ((Counts(s, es[0]) ==> Happen(s, es[0]).bw >= 4) && Measurable(Happen(s, es[0]), es[1..]))
  }

  /** From the start of a connection, and from every return to STARTUP, where nothing has been measured: at most one round more. */
  lemma {:induction false} StartupRoundsFromZero(s: Leocc, es: seq<Event>, top: nat)
    requires Inv(s) && s.bw <= top && s.growth.fullBw <= top <= GROWTH_LIMIT && StaysInStartup(s, es, top) && Measurable(s, es)
    ensures Rounds(s, es) <= 363
    decreases |es|
  {
    hide Happen, Bounded, Counts, Steps;
    if s.growth.fullBw >= 4 {
      hide Rounds, StaysInStartup;
      StartupRounds(s, es, top, 0);
    } else if es != [] {
      StartupAck(s, es[0], top);
      var t := Happen(s, es[0]);
      if Counts(s, es[0]) {
        FirstGrowth(s.growth, t.bw);
        StartupRounds(t, es[1..], top, 0);
      } else {
        StartupRoundsFromZero(t, es[1..], top);
      }
    }
  }

  lemma FirstGrowth(g: Growth, maxBw: nat)
    requires g.fullBw < 4 <= maxBw && !g.reached
    ensures Grow(g, maxBw) == Growth(maxBw, 0, false)
  {
    ThresholdIsHigher(g.fullBw);
    hide Threshold;
  }

  lemma ThirtyDoublings()
    ensures Pow2(30) == UINT32 / 4
  {
    assert Pow2(10) == 1024;
    assert Pow2(20) == 1024 * 1024;
  }
}
