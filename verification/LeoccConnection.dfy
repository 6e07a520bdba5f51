/** `struct leocc` and its callbacks, against the model. */
module LeoccConnection {
  import opened LeoccMath
  import opened LeoccKalman
  import opened LeoccModel
  import opened LeoccRuns
  import opened Widths

  class Connection {
    var mode: Mode
    var trigger: bool
    var fullBw: nat
    var fullBwCnt: nat
    var fullBwReached: bool
    var bw: nat
    var latestBw: nat
    var rttCntMaxBw: nat
    var reconfigurationMaxBw: nat
    var rttCnt: nat
    var nextRttDelivered: nat
    var roundStart: bool
    var idleRestart: bool
    var minRttUs: nat
    var minRttStamp: nat
    var probeRttDoneStamp: nat
    var probeRttRoundDone: bool
    var cycleIdx: nat
    var bwFilter: Filter
    var rttFilter: Filter
    var pacingGain: nat
    var cwndGain: nat

    function View(): Leocc
      reads this
    {
      Leocc(mode, trigger, Growth(fullBw, fullBwCnt, fullBwReached), bw, latestBw, rttCntMaxBw, reconfigurationMaxBw,
            rttCnt, nextRttDelivered, roundStart, idleRestart, minRttUs, minRttStamp, probeRttDoneStamp, probeRttRoundDone,
            cycleIdx, bwFilter, rttFilter, pacingGain, cwndGain)
    }

    /** `leocc_init`. */
    constructor (delivered: nat, jiffies: nat, minRtt: nat)
      ensures View() == Init(delivered, jiffies, minRtt) && Inv(View())
    {
      mode, trigger, fullBw, fullBwCnt, fullBwReached := Startup, false, 0, 0, false;
      bw, latestBw, rttCntMaxBw, reconfigurationMaxBw := 0, 0, 0, 0;
      rttCnt, nextRttDelivered, roundStart, idleRestart := 0, delivered, false, false;
      minRttUs, minRttStamp, probeRttDoneStamp, probeRttRoundDone := minRtt, jiffies, 0, false;
      cycleIdx, bwFilter, rttFilter, pacingGain, cwndGain := 0, InitFilter(), InitFilter(), 0, 0;
    }

    /** `leocc_update_bw`. */
    method UpdateBwInPlace(rs: Sample, env: Env)
      modifies this
      ensures View() == UpdateBw(old(View()), rs, env)
    {
      hide StartRound, RecordRound, RecordMax;
      if rs.delivered < 0 || rs.intervalUs <= 0 {
        roundStart := false;
        return;
      }
      StartRoundInPlace(rs, env);
      RecordRoundInPlace(rs, env);
      RecordMaxInPlace(rs, env);
    }

    method StartRoundInPlace(rs: Sample, env: Env)
      modifies this`roundStart, this`nextRttDelivered, this`rttCnt, this`rttCntMaxBw
      ensures View() == StartRound(old(View()), rs, env)
    {
      hide Before;
      roundStart := false;
      if !Before(rs.priorDelivered, nextRttDelivered) {
        nextRttDelivered := env.delivered;
        rttCnt := (rttCnt + 1) % UINT32;
        rttCntMaxBw := 0;
        roundStart := true;
      }
    }

    method RecordRoundInPlace(rs: Sample, env: Env)
      requires Usable(rs)
      modifies this`rttCntMaxBw, this`reconfigurationMaxBw
      ensures View() == RecordRound(old(View()), rs, env)
    {
      hide BwSample;
      if BwSample(rs) > rttCntMaxBw {
        rttCntMaxBw := BwSample(rs) % UINT32;
      }
      if mode == ProbeRtt && rs.rttUs > 0 && rttFilter.hat > rs.rttUs + env.deltaThresh {
        reconfigurationMaxBw := latestBw;
      }
    }

    method RecordMaxInPlace(rs: Sample, env: Env)
      requires Usable(rs)
      modifies this`bw, this`latestBw
      ensures View() == RecordMax(old(View()), rs, env)
    {
      hide BwSample;
      if !rs.appLimited || BwSample(rs) >= bw {
        bw := env.filtered;
      }
      latestBw := BwSample(rs) % UINT32;
    }

    /** `leocc_check_full_bw_reached`. */
    method CheckFullBwReached(rs: Sample)
      modifies this`fullBw, this`fullBwCnt, this`fullBwReached
      ensures View() == CheckFullBw(old(View()), rs)
    {
      if fullBwReached || !roundStart || rs.appLimited {
        return;
      }
      if bw >= Threshold(fullBw) {
        fullBw := bw;
        fullBwCnt := 0;
        return;
      }
      fullBwCnt := (fullBwCnt + 1) % 4;
      fullBwReached := fullBwCnt >= FULL_BW_CNT;
    }

    method AdvanceCyclePhase()
      modifies this`cycleIdx
      ensures View() == AdvanceCycle(old(View()))
    {
      cycleIdx := (cycleIdx + 1) % CYCLE_LEN;
    }

    method ResetStartupMode()
      modifies this`fullBw, this`fullBwCnt, this`fullBwReached, this`mode
      ensures View() == ToStartup(old(View()))
    {
      fullBwReached, fullBw, fullBwCnt := false, 0, 0;
      mode := Startup;
    }

    method ResetProbeBwMode(env: Env)
      modifies this`mode, this`cycleIdx
      ensures View() == ToCruise(old(View()), env)
    {
      mode := Cruise;
      cycleIdx := CYCLE_LEN - 1 - env.random % CYCLE_RAND;
      AdvanceCyclePhase();
    }

    /** `leocc_check_drain`. */
    method CheckDrainInPlace(env: Env)
      modifies this
      ensures View() == CheckDrain(old(View()), env)
    {
      hide Inflight;
      if mode == Startup && fullBwReached {
        reconfigurationMaxBw := 0;
        trigger := false;
        mode := Drain;
      }
      if mode == Drain && env.inFlightAtEdt <= Inflight(bw, minRttUs, LEOCC_UNIT, env.tsoGoal, mode == Cruise && cycleIdx == 0) {
        ResetProbeBwMode(env);
      }
    }

    /** `leocc_check_probe_rtt_done` with `leocc_reset_mode`. */
    method CheckProbeRttDoneInPlace(env: Env)
      modifies this
      ensures View() == CheckProbeRttDone(old(View()), env)
    {
      hide Before;
      if !(probeRttDoneStamp != 0 && After(env.jiffies, probeRttDoneStamp)) {
        return;
      }
      if !fullBwReached || trigger {
        ResetStartupMode();
      } else {
        ResetProbeBwMode(env);
      }
      if trigger {
        bw := reconfigurationMaxBw;
      }
    }

    method ProbeRttInPlace(rs: Sample, env: Env)
      modifies this
      ensures View() == ProbeRttStep(old(View()), rs, env)
    {
      hide CheckProbeRttDone, SetProbeEnd, RefreshMinRtt;
      if probeRttDoneStamp == 0 {
        SetProbeEndInPlace(env);
      } else {
        if roundStart {
          probeRttRoundDone := true;
        }
        if probeRttRoundDone {
          RefreshMinRttInPlace(rs, env);
          CheckProbeRttDoneInPlace(env);
        }
      }
    }

    method SetProbeEndInPlace(env: Env)
      modifies this`probeRttDoneStamp, this`probeRttRoundDone, this`nextRttDelivered
      ensures View() == SetProbeEnd(old(View()), env)
    {
      hide ProbeRttCwnd;
      if env.inFlight <= ProbeRttCwnd(View()) {
        probeRttDoneStamp := (env.jiffies + PROBE_RTT_MODE_MS * env.hz / 1000) % UINT32;
        probeRttRoundDone := false;
        nextRttDelivered := env.delivered;
      }
    }

    method RefreshMinRttInPlace(rs: Sample, env: Env)
      modifies this`minRttUs, this`minRttStamp
      ensures View() == RefreshMinRtt(old(View()), rs, env)
    {
      hide Before;
      if After(env.jiffies, probeRttDoneStamp) {
        minRttUs := rs.rttUs % UINT32;
        minRttStamp := env.jiffies;
      }
    }

    /** `leocc_update_min_rtt`. */
    method UpdateMinRttInPlace(rs: Sample, env: Env)
      modifies this
      ensures View() == UpdateMinRtt(old(View()), rs, env)
    {
      hide FilterExpired, TrackMinRtt, EnterProbeRtt, ProbeRttStep, EndIdle;
      var filterExpired := FilterExpired(View(), env);
      TrackMinRttInPlace(rs, env);
      EnterProbeRttInPlace(filterExpired);
      if mode == ProbeRtt {
        ProbeRttInPlace(rs, env);
      }
      EndIdleInPlace(rs);
    }

    method TrackMinRttInPlace(rs: Sample, env: Env)
      modifies this`minRttUs, this`minRttStamp
      ensures View() == TrackMinRtt(old(View()), rs, env)
    {
      hide FilterExpired;
      if rs.rttUs >= 0 && (rs.rttUs < minRttUs || (FilterExpired(View(), env) && !rs.ackDelayed)) {
        minRttUs := rs.rttUs % UINT32;
        minRttStamp := env.jiffies;
      }
    }

    method EnterProbeRttInPlace(filterExpired: bool)
      modifies this`mode, this`probeRttDoneStamp
      ensures View() == EnterProbeRtt(old(View()), filterExpired)
    {
      if !idleRestart && mode == Cruise && (filterExpired || trigger) {
        mode := ProbeRtt;
        probeRttDoneStamp := 0;
      }
    }

    method EndIdleInPlace(rs: Sample)
      modifies this`idleRestart
      ensures View() == EndIdle(old(View()), rs)
    {
      if rs.delivered > 0 {
        idleRestart := false;
      }
    }

    /** `leocc_update_gains`. */
    method UpdateGainsInPlace(env: Env)
      modifies this`pacingGain, this`cwndGain
      ensures View() == UpdateGains(old(View()), env)
    {
      match mode {
        case Startup => pacingGain, cwndGain := HIGH_GAIN, HIGH_GAIN;
        case Drain => pacingGain, cwndGain := DRAIN_GAIN, HIGH_GAIN;
        case Cruise =>
          pacingGain := if cycleIdx == 0 then env.probeGain else if cycleIdx == 1 then LEOCC_UNIT * 3 / 4 else LEOCC_UNIT;
          cwndGain := CWND_GAIN;
        case ProbeRtt => pacingGain, cwndGain := LEOCC_UNIT, LEOCC_UNIT;
      }
    }

    /** `leocc_update_model`, without the gains. */
    method UpdateModel(rs: Sample, env: Env)
      modifies this
      ensures View() == UpdateMinRtt(CheckDrain(Measured(old(View()), rs, env), env), rs, env)
    {
      hide UpdateBw, CheckFullBw, CheckDrain, UpdateMinRtt, AdvanceCycle;
      UpdateBwInPlace(rs, env);
      if mode == Cruise && env.phaseOver {
        AdvanceCyclePhase();
      }
      CheckFullBwReached(rs);
      CheckDrainInPlace(env);
      UpdateMinRttInPlace(rs, env);
    }

    /** `leocc_main`: one ACK. */
    method OnAck(rs: Sample, env: Env)
      requires Inv(View())
      modifies this
      ensures View() == Happen(old(View()), Ack(rs, env)) && Inv(View())
      ensures old(Pending(View())) ==> Pending(View()) || Answers(old(View()), View())
    {
      MainKeeps(View(), rs, env);
      hide BeforeModel, Measured, CheckDrain, UpdateMinRtt, UpdateGains, AfterModel, Answers, Inv;
      BeforeModelInPlace(rs, env);
      UpdateModel(rs, env);
      UpdateGainsInPlace(env);
      AfterModelInPlace(rs);
    }

    method BeforeModelInPlace(rs: Sample, env: Env)
      modifies this`trigger, this`bwFilter
      ensures View() == BeforeModel(old(View()), rs, env)
    {
      hide Update, Before;
      if env.raised && !trigger {
        trigger := true;
      }
      if mode == Cruise && !Before(rs.priorDelivered, nextRttDelivered) {
        bwFilter := Update(bwFilter, rttCntMaxBw);
      }
    }

    method AfterModelInPlace(rs: Sample)
      modifies this`rttFilter
      ensures View() == AfterModel(old(View()), rs)
    {
      hide Update;
      if rs.rttUs > 0 {
        rttFilter := Update(rttFilter, rs.rttUs);
      }
    }

    /** `leocc_cwnd_event` for the start of a transmission while application limited. */
    method OnTxStart(env: Env)
      requires Inv(View())
      modifies this
      ensures View() == Happen(old(View()), TxStart(env)) && Inv(View())
      ensures old(Pending(View())) ==> Pending(View()) || Answers(old(View()), View())
    {
      HappenKeeps(View(), TxStart(env));
      hide CheckProbeRttDone, Inv, Answers;
      idleRestart := true;
      if mode == ProbeRtt {
        CheckProbeRttDoneInPlace(env);
      }
    }

    /** `leocc_undo_cwnd`. */
    method OnUndoCwnd()
      requires Inv(View())
      modifies this`fullBw, this`fullBwCnt
      ensures View() == Happen(old(View()), UndoCwnd) && Inv(View())
      ensures old(Pending(View())) ==> Pending(View()) || Answers(old(View()), View())
    {
      fullBw, fullBwCnt := 0, 0;
    }

    /** `leocc_set_state` for a timeout. */
    method OnLoss()
      requires Inv(View())
      modifies this`fullBw, this`roundStart
      ensures View() == Happen(old(View()), Loss) && Inv(View())
      ensures old(Pending(View())) ==> Pending(View()) || Answers(old(View()), View())
    {
      fullBw := 0;
      roundStart := true;
    }
  }
}
