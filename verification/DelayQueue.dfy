/** The time-varying delay line of delay_queue.cc. */
module DelayQueue {
  import opened Arithmetic
  import opened Widths

  /** A packet waiting for its release time. */
  datatype Held = Held(release: nat, contents: string)

  /** The delay of the trace slot that `now` falls into; the trace repeats. */
  function DelayAt(base: nat, interval: nat, delays: seq<nat>, now: nat): nat
    requires interval > 0 && delays != []
  {
    delays[(now - base) % UINT64 / interval % |delays|]
  }

  /** In slot `k` of any repetition of the trace the delay is its `k`-th entry. */
  lemma DelayOfSlot(base: nat, interval: nat, delays: seq<nat>, round: nat, k: nat, within: nat)
    requires k < |delays| && within < interval
    requires (round * |delays| + k) * interval + within < UINT64
    ensures DelayAt(base, interval, delays, base + (round * |delays| + k) * interval + within) == delays[k]
  {
    var slot := round * |delays| + k;
    var t := slot * interval + within;
    assert t % UINT64 == t;
    DivUnique(t, interval, slot, within);
    DivUnique(slot, |delays|, round, k);
  }

  /** The priority queue as a multiset, everything emitted so far, and the last reading of the clock. */
  datatype State = State(held: multiset<Held>, emitted: seq<Held>, clock: nat)

  /** `top` of the priority queue may be any packet with the least release time. */
  predicate IsTop(held: multiset<Held>, p: Held) {
    p in held && forall q | q in held :: p.release <= q.release
  }

  lemma {:induction false} TopExists(held: multiset<Held>)
    requires held != multiset{}
    ensures exists p :: IsTop(held, p)
    decreases |held|
  {
    var p :| p in held;
    var rest := held - multiset{p};
    if rest == multiset{} {
      assert held == multiset{p};
      assert IsTop(held, p);
    } else {
      TopExists(rest);
      var r :| IsTop(rest, r);
      var least := if p.release <= r.release then p else r;
      forall q | q in held ensures least.release <= q.release {
        if q != p { assert q in rest; }
      }
      assert IsTop(held, least);
    }
  }

  predicate Sorted(s: seq<Held>) {
    forall i, j | 0 <= i <= j < |s| :: s[i].release <= s[j].release
  }

  /** What every step keeps: the output is in order of release, nothing held could have gone before it, and
      nothing went out before its time. */
  ghost predicate Valid(s: State) {
    && Sorted(s.emitted)
    && (forall i, h | 0 <= i < |s.emitted| && h in s.held :: s.emitted[i].release <= h.release)
    && (forall i | 0 <= i < |s.emitted| :: s.emitted[i].release <= s.clock)
  }

  /** An arrival, one turn of the loop of `write_packets`, or its end. */
  datatype Event = Read(now: nat, p: Held) | Emit(now: nat, p: Held) | Rest(now: nat)

  ghost predicate Enabled(s: State, e: Event) {
    && s.clock <= e.now
    && match e
       case Read(now, p) => p.release >= now
       case Emit(now, p) => IsTop(s.held, p) && p.release <= now
       case Rest(now) => forall q | q in s.held :: q.release > now
  }

  function Happen(s: State, e: Event): State {
    match e
    case Read(now, p) => s.(held := s.held + multiset{p}, clock := now)
    case Emit(now, p) => s.(held := s.held - multiset{p}, emitted := s.emitted + [p], clock := now)
    case Rest(now) => s.(clock := now)
  }

  lemma HappenKeeps(s: State, e: Event)
    requires Valid(s) && Enabled(s, e)
    ensures Valid(Happen(s, e))
  {
    var t := Happen(s, e);
    if e.Emit? {
      assert forall i | 0 <= i < |t.emitted| :: t.emitted[i] == if i < |s.emitted| then s.emitted[i] else e.p;
      assert forall h | h in t.held :: h in s.held;
    }
  }

  ghost predicate Possible(s: State, es: seq<Event>)
    decreases |es|
  {
    es == [] || (Enabled(s, es[0]) && Possible(Happen(s, es[0]), es[1..]))
  }

  function Run(s: State, es: seq<Event>): State
    decreases |es|
  {
    if es == [] then s else Run(Happen(s, es[0]), es[1..])
  }

  function Arrivals(es: seq<Event>): multiset<Held> {
    if es == [] then multiset{}
    else (if es[0].Read? then multiset{es[0].p} else multiset{}) + Arrivals(es[1..])
  }

  /** Over every run with a clock that does not go back, however the delays vary and ties are broken: the whole output is
      sorted by release time, and output plus held packets are exactly the arrivals. */
  lemma {:induction false} RunSorted(s: State, es: seq<Event>)
    requires Valid(s) && Possible(s, es)
    ensures var r := Run(s, es);
            && Valid(r)
            && multiset(r.emitted) + r.held == multiset(s.emitted) + s.held + Arrivals(es)
    decreases |es|
  {
    if es != [] {
      hide Valid, Enabled, Happen, Arrivals;
      HappenKeeps(s, es[0]);
      Balance(s, es[0]);
      RunSorted(Happen(s, es[0]), es[1..]);
      ArrivalsUnfold(es);
    } else {
      assert Arrivals(es) == multiset{};
    }
  }

  lemma ArrivalsUnfold(es: seq<Event>)
    requires es != []
    ensures Arrivals(es) == Arrivals([es[0]]) + Arrivals(es[1..])
  {
    assert [es[0]][1..] == [];
  }

  lemma Balance(s: State, e: Event)
    requires Enabled(s, e)
    ensures multiset(Happen(s, e).emitted) + Happen(s, e).held == multiset(s.emitted) + s.held + Arrivals([e])
  {
    assert [e][1..] == [];
  }

  lemma ClockForward(s: State, now: nat)
    requires Valid(s) && s.clock <= now
    ensures Valid(s.(clock := now))
  {}

  lemma OutputInOrder(s: State, before: seq<Held>, out: seq<Held>)
    requires Valid(s) && s.emitted == before + out
    ensures Sorted(out) && forall p | p in out :: p.release <= s.clock
  {
    assert forall i | 0 <= i < |out| :: out[i] == s.emitted[|before| + i];
  }

  /** The class, with the whole output kept as history. */
  class DelayQueue {
    const baseTimestamp: nat
    const intervalMs: nat
    const delaysMs: seq<nat>
    var packetQueue: multiset<Held>
    ghost var emitted: seq<Held>
    ghost var clock: nat

    ghost function View(): State
      reads this
    {
      State(packetQueue, emitted, clock)
    }

    ghost predicate Ok()
      reads this
    {
      intervalMs > 0 && delaysMs != [] && Valid(View())
    }

    /** The constructor throws if the trace is empty; `read_packet` divides by the interval. */
    constructor (baseTimestamp: nat, intervalMs: nat, delaysMs: seq<nat>)
      requires intervalMs > 0 && delaysMs != []
      ensures Ok() && View() == State(multiset{}, [], 0)
      ensures this.baseTimestamp == baseTimestamp && this.intervalMs == intervalMs && this.delaysMs == delaysMs
    {
      this.baseTimestamp, this.intervalMs, this.delaysMs := baseTimestamp, intervalMs, delaysMs;
      packetQueue, emitted, clock := multiset{}, [], 0;
    }

    /** `read_packet`. */
    method ReadPacket(now: nat, contents: string)
      requires Ok() && clock <= now
      modifies this
      ensures Ok() && View() == Happen(old(View()), Read(now, Held(now + DelayAt(baseTimestamp, intervalMs, delaysMs, now), contents)))
    {
      var p := Held(now + DelayAt(baseTimestamp, intervalMs, delaysMs, now), contents);
      HappenKeeps(View(), Read(now, p));
      packetQueue := packetQueue + multiset{p};
      clock := now;
    }

    /** `write_packets`: it reads the clock on every turn and stops at reading `end`. What it writes is exactly what
        is due by then, in order of release. */
    method WritePackets(start: nat) returns (out: seq<Held>, end: nat)
      requires Ok() && clock <= start
      modifies this
      ensures Ok() && start <= end == clock
      ensures emitted == old(emitted) + out && Sorted(out)
      ensures multiset(out) + packetQueue == old(packetQueue)
      ensures (forall p | p in out :: p.release <= end) && (forall p | p in packetQueue :: p.release > end)
    {
      hide Valid, Sorted;
      out, end := [], start;
      ClockForward(View(), start);
      clock := start;
      while packetQueue != multiset{}
        invariant Ok() && start <= end == clock
        invariant emitted == old(emitted) + out
        invariant multiset(out) + packetQueue == old(packetQueue)
        decreases |packetQueue|
      {
        TopExists(packetQueue);
        var p :| IsTop(packetQueue, p);
        var reading: nat :| reading >= end;
        end := reading;
        if p.release > end {
          ClockForward(View(), end);
          clock := end;
          break;
        }
        EmitTop(p, end);
        out := out + [p];
      }
      OutputInOrder(View(), old(emitted), out);
    }

    /** One packet goes out. */
    method EmitTop(p: Held, now: nat)
      requires Ok() && clock <= now && IsTop(packetQueue, p) && p.release <= now
      modifies this
      ensures Ok() && emitted == old(emitted) + [p] && clock == now
      ensures packetQueue + multiset{p} == old(packetQueue)
    {
      HappenKeeps(View(), Emit(now, p));
      packetQueue := packetQueue - multiset{p};
      emitted := emitted + [p];
      clock := now;
    }

    /** `wait_time`. */
    method WaitTime(now: nat) returns (wait: nat)
      requires Ok()
      ensures packetQueue == multiset{} ==> wait == UINT16_MAX
      ensures packetQueue != multiset{} ==> ((wait == 0 <==> exists p :: p in packetQueue && p.release <= now))
      ensures packetQueue != multiset{} && wait > 0 ==> exists p :: IsTop(packetQueue, p) && p.release == now + wait
    {
      if packetQueue == multiset{} {
        return UINT16_MAX;
      }
      TopExists(packetQueue);
      var p :| IsTop(packetQueue, p);
      if p.release <= now {
        return 0;
      } else {
        return p.release - now;
      }
    }
  }
}
