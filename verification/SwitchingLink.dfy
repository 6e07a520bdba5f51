/** The periodically switching link of loss_queue.cc. */
module SwitchingLink {
  import opened Arithmetic
  import opened Widths

  /** Whether the link is on and when it switches next. */
  datatype Switch = Switch(on: bool, next: nat)

  /** One turn of the loop: the link toggles and stays so for its on time or its off time. */
  function Toggle(s: Switch, onTime: nat, offTime: nat): Switch {
    Switch(!s.on, s.next + if !s.on then onTime else offTime)
  }

  /** The stretch that begins at the next switch. */
  function Stretch(s: Switch, onTime: nat, offTime: nat): nat {
    if !s.on then onTime else offTime
  }

  /** The loop of `wait_time`. A stretch of length zero is followed by one that is not. */
  function Advance(s: Switch, onTime: nat, offTime: nat, now: nat): Switch
    requires onTime + offTime > 0
    decreases now - s.next, if Stretch(s, onTime, offTime) == 0 then 1 else 0
  {
    if s.next > now then s else Advance(Toggle(s, onTime, offTime), onTime, offTime, now)
  }

  /** Time since `t0` within the current period of on time plus off time. */
  function Phase(t0: nat, onTime: nat, offTime: nat, now: nat): nat
    requires t0 <= now && onTime + offTime > 0
  {
    (now - t0) % (onTime + offTime)
  }

  /** A switch state that belongs to a link started at `t0`: a switch on falls on a multiple of the period. */
  predicate OnGrid(s: Switch, t0: nat, onTime: nat, offTime: nat)
    requires onTime + offTime > 0
  {
    t0 <= s.next && (s.next - t0) % (onTime + offTime) == if s.on then onTime % (onTime + offTime) else 0
  }

  /** `s` describes time `now`: its stretch has begun and not ended. */
  predicate Covers(s: Switch, onTime: nat, offTime: nat, now: nat) {
    s.next > now && s.next <= now + if s.on then onTime else offTime
  }

  lemma ModStep(a: nat, b: nat, m: nat)
    requires m > 0 && b <= m
    ensures (a + b) % m == if a % m + b < m then a % m + b else a % m + b - m
  {
    var q, r := a / m, a % m;
    if r + b < m {
      DivUnique(a + b, m, q, r + b);
    } else {
      assert a + b == (q + 1) * m + (r + b - m);
      DivUnique(a + b, m, q + 1, r + b - m);
    }
  }

  lemma ToggleOnGrid(s: Switch, t0: nat, onTime: nat, offTime: nat)
    requires onTime + offTime > 0 && OnGrid(s, t0, onTime, offTime)
    ensures OnGrid(Toggle(s, onTime, offTime), t0, onTime, offTime)
  {
    var m := onTime + offTime;
    if !s.on {
      ModStep(s.next - t0, onTime, m);
      ModStep(0, onTime, m);
    } else {
      ModStep(s.next - t0, offTime, m);
      ModStep(0, onTime, m);
    }
  }

  /** The loop ends on the stretch that covers now. */
  lemma {:induction false} AdvanceCovers(s: Switch, t0: nat, onTime: nat, offTime: nat, now: nat)
    requires onTime + offTime > 0 && OnGrid(s, t0, onTime, offTime) && t0 <= now
    requires s.next <= now || Covers(s, onTime, offTime, now)
    ensures var r := Advance(s, onTime, offTime, now); OnGrid(r, t0, onTime, offTime) && Covers(r, onTime, offTime, now)
    decreases now - s.next, if Stretch(s, onTime, offTime) == 0 then 1 else 0
  {
    if s.next <= now {
      hide OnGrid;
      ToggleOnGrid(s, t0, onTime, offTime);
      AdvanceCovers(Toggle(s, onTime, offTime), t0, onTime, offTime, now);
    }
  }

  /** On the grid, the stretch that covers now is the one its phase says. */
  lemma CoverPhase(s: Switch, t0: nat, onTime: nat, offTime: nat, now: nat)
    requires onTime + offTime > 0 && t0 <= now && OnGrid(s, t0, onTime, offTime) && Covers(s, onTime, offTime, now)
    ensures s.on <==> Phase(t0, onTime, offTime, now) < onTime
    ensures s.next - now == if s.on then onTime - Phase(t0, onTime, offTime, now) else onTime + offTime - Phase(t0, onTime, offTime, now)
  {
    var m := onTime + offTime;
    var left := s.next - now;
    ModStep(now - t0, left, m);
    ModStep(0, onTime, m);
    assert (now - t0) + left == s.next - t0;
  }

  /** The closed form: the link is on exactly while the time since the start, taken modulo on time plus off time,
      is less than the on time; either time may be zero. */
  lemma ClosedForm(t0: nat, onTime: nat, offTime: nat, now: nat)
    requires onTime + offTime > 0 && t0 <= now
    ensures var r := Advance(Switch(false, t0), onTime, offTime, now);
            var phase := Phase(t0, onTime, offTime, now);
            && (r.on <==> phase < onTime)
            && r.next == now + if r.on then onTime - phase else onTime + offTime - phase
  {
    hide OnGrid, Advance;
    StartOnGrid(t0, onTime, offTime);
    AdvanceCovers(Switch(false, t0), t0, onTime, offTime, now);
    CoverPhase(Advance(Switch(false, t0), onTime, offTime, now), t0, onTime, offTime, now);
  }

  lemma StartOnGrid(t0: nat, onTime: nat, offTime: nat)
    requires onTime + offTime > 0
    ensures OnGrid(Switch(false, t0), t0, onTime, offTime)
  {
    ModStep(0, 0, onTime + offTime);
  }

  /** However the calls are spaced, only the last one counts. */
  lemma {:induction false} AdvanceTwice(s: Switch, onTime: nat, offTime: nat, t1: nat, t2: nat)
    requires onTime + offTime > 0 && t1 <= t2
    ensures Advance(Advance(s, onTime, offTime, t1), onTime, offTime, t2) == Advance(s, onTime, offTime, t2)
    decreases t1 - s.next, if Stretch(s, onTime, offTime) == 0 then 1 else 0
  {
    if s.next <= t1 {
      AdvanceTwice(Toggle(s, onTime, offTime), onTime, offTime, t1, t2);
    }
  }

  /** `PeriodicSwitchingLink` with the packet queue of `LossQueue`. */
  class PeriodicSwitchingLink {
    const onTime: nat
    const offTime: nat
    ghost const start: nat
    var linkIsOn: bool
    var nextSwitchTime: nat
    var packetQueue: seq<string>

    /** The switch state is the one `wait_time` at `now` leaves, whatever calls came before. */
    ghost predicate UpTo(now: nat)
      reads this
    {
      start <= now && onTime + offTime > 0 && Switch(linkIsOn, nextSwitchTime) == Advance(Switch(false, start), onTime, offTime, now)
    }

    /** The constructor throws if both times are zero. */
    constructor (onTime: nat, offTime: nat, now: nat)
      requires onTime + offTime > 0
      ensures this.onTime == onTime && this.offTime == offTime && start == now && packetQueue == []
      ensures !linkIsOn && nextSwitchTime == now
    {
      this.onTime, this.offTime, start := onTime, offTime, now;
      linkIsOn, nextSwitchTime, packetQueue := false, now, [];
    }

    /** `wait_time`. */
    method WaitTime(now: nat, ghost last: nat) returns (wait: nat)
      requires onTime + offTime > 0 && start <= now
      requires (!linkIsOn && nextSwitchTime == start) || (UpTo(last) && last <= now)
      modifies this`linkIsOn, this`nextSwitchTime
      ensures UpTo(now)
      ensures linkIsOn <==> Phase(start, onTime, offTime, now) < onTime
      ensures wait == if packetQueue != [] then 0 else if nextSwitchTime - now > UINT16_MAX then UINT16_MAX else nextSwitchTime - now
    {
      hide Advance;
      ghost var target := Advance(Switch(false, start), onTime, offTime, now);
      if UpTo(last) && last <= now {
        AdvanceTwice(Switch(false, start), onTime, offTime, last, now);
      }
      ClosedForm(start, onTime, offTime, now);
      while nextSwitchTime <= now
        invariant Advance(Switch(linkIsOn, nextSwitchTime), onTime, offTime, now) == target
        decreases now - nextSwitchTime, if Stretch(Switch(linkIsOn, nextSwitchTime), onTime, offTime) == 0 then 1 else 0
      {
        AdvanceStep(Switch(linkIsOn, nextSwitchTime), onTime, offTime, now);
        linkIsOn := !linkIsOn;
        nextSwitchTime := nextSwitchTime + if linkIsOn then onTime else offTime;
      }
      AdvanceStep(Switch(linkIsOn, nextSwitchTime), onTime, offTime, now);
      if packetQueue != [] {
        return 0;
      }
      if nextSwitchTime - now > UINT16_MAX {
        return UINT16_MAX;
      }
      return nextSwitchTime - now;
    }

    /** `read_packet`: a packet gets through exactly if the link was in its on time at the last `wait_time`; before the first it
        is off. */
    method ReadPacket(contents: string, ghost last: nat)
      requires (!linkIsOn && nextSwitchTime == start) || UpTo(last)
      modifies this`packetQueue
      ensures var on := UpTo(last) && Phase(start, onTime, offTime, last) < onTime;
              packetQueue == if on then old(packetQueue) + [contents] else old(packetQueue)
    {
      hide Advance;
      if UpTo(last) {
        ClosedForm(start, onTime, offTime, last);
      }
      if linkIsOn {
        packetQueue := packetQueue + [contents];
      }
    }

    /** `write_packets`. */
    method WritePackets() returns (out: seq<string>)
      modifies this`packetQueue
      ensures out == old(packetQueue) && packetQueue == []
    {
      out := [];
      while packetQueue != []
        invariant out + packetQueue == old(packetQueue)
      {
        out := out + [packetQueue[0]];
        packetQueue := packetQueue[1..];
      }
    }
  }

  lemma AdvanceStep(s: Switch, onTime: nat, offTime: nat, now: nat)
    requires onTime + offTime > 0
    ensures Advance(s, onTime, offTime, now) == if s.next > now then s else Advance(Toggle(s, onTime, offTime), onTime, offTime, now)
  {}
}
