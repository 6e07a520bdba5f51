/** The CoDel queue of codel_packet_queue.cc (RFC 8289, sections 5.5 and 5.6). */
module CodelQueue {
  import opened PacketQueues
  import opened Widths
  import opened Rounding
  import opened Sequences

  /** What one `dodequeue` saw: when, which packet, how long it had waited, and how many bytes stayed queued. */
  datatype Observation = Observation(time: nat, packet: Packet, sojourn: nat, bytesLeft: nat)

  /** The fields of `CODELPacketQueue`. `seen` and `discards` are history: every `dodequeue` so far, and the
      positions in `seen` of those whose packet was discarded. */
  datatype Codel = Codel(target: nat, interval: nat, limits: Discipline, queue: seq<Packet>,
                         firstAbove: nat, dropNext: nat, count: nat, lastCount: nat, dropping: bool,
                         seen: seq<Observation>, discards: seq<nat>)

  function New(target: nat, interval: nat, limits: Discipline): Codel {
    Codel(target, interval, limits, [], 0, 0, 0, 0, false, [], [])
  }

  /** `now - arrival_time` in 64-bit unsigned arithmetic, whatever clock stamped the packet. */
  function Sojourn(now: nat, p: Packet): nat {
    (now - p.arrival) % UINT64
  }

  /** Long waits and more than one packet's worth of bytes still queued. */
  predicate Above(target: nat, o: Observation) {
    o.sojourn >= target && o.bytesLeft > PACKET_SIZE
  }

  function Look(c: Codel, now: nat): Observation
    requires c.queue != []
  {
    Observation(now, c.queue[0], Sojourn(now, c.queue[0]), Bytes(c.queue[1..]))
  }

  /** `dodequeue`: the new state and whether the packet may be dropped. */
  function DoDequeue(c: Codel, now: nat): (Codel, bool)
    requires c.queue != []
  {
    var popped := c.(queue := c.queue[1..], seen := c.seen + [Look(c, now)]);
    if popped.queue == [] || !Above(c.target, Look(c, now)) then (popped.(firstAbove := 0), false)
    else if c.firstAbove == 0 then (popped.(firstAbove := now + c.interval), false)
    else (popped, now >= c.firstAbove)
  }

  /** The largest d with d * d * count <= interval * interval: interval / sqrt(count), cut to an integer. */
  function RootFrom(interval: nat, count: nat, d: nat): (r: nat)
    requires count >= 1
    requires forall e | e > d :: e * e * count > interval * interval
    ensures r <= d && r * r * count <= interval * interval
    ensures forall e | e > r :: e * e * count > interval * interval
  {
    if d * d * count <= interval * interval || d == 0 then d
    else
      NoneAbove(interval, count, d);
      RootFrom(interval, count, d - 1)
  }

  lemma NoneAbove(interval: nat, count: nat, d: nat)
    requires d > 0 && d * d * count > interval * interval
    requires forall e | e > d :: e * e * count > interval * interval
    ensures forall e | e > d - 1 :: e * e * count > interval * interval
  {}

  lemma IntervalIsEnough(interval: nat, count: nat, e: nat)
    requires count >= 1 && e > interval
    ensures e * e * count > interval * interval
  {
    assert e * e >= (interval + 1) * e >= (interval + 1) * (interval + 1);
    assert e * e * count >= e * e;
  }

  /** `control_law`. */
  function ControlLaw(t: nat, interval: nat, count: nat): (r: nat)
    requires count >= 1
    ensures t <= r <= t + interval
    ensures (r - t) * (r - t) * count <= interval * interval < (r - t + 1) * (r - t + 1) * count
  {
    assert forall e | e > interval :: e * e * count > interval * interval by {
      forall e | e > interval ensures e * e * count > interval * interval { IntervalIsEnough(interval, count, e); }
    }
    t + RootFrom(interval, count, interval)
  }

  /** The code computes the step as a double. If that is within one part in 2^50 of interval / sqrt(count), and equal to it where that
      is whole, as two correctly rounded operations make it, then cutting it to an integer gives the step above, for every
      interval of up to 2^24 milliseconds. */
  lemma ControlLawTruncates(t: nat, interval: nat, count: nat, quotient: real, computed: real)
    requires count >= 1 && interval <= 0x100_0000
    requires quotient >= 0.0 && quotient * quotient * count as real == (interval * interval) as real
    requires quotient - quotient * EPSILON <= computed <= quotient + quotient * EPSILON
    requires quotient == quotient.Floor as real ==> computed == quotient
    ensures t + computed.Floor == ControlLaw(t, interval, count)
  {
    var d := ControlLaw(t, interval, count) - t;
    hide ControlLaw;
    TruncatedQuotient(interval, count, d, quotient, computed);
  }

  /** The packet just popped is thrown away. */
  function Discard(c: Codel): Codel
    requires c.seen != []
  {
    c.(discards := c.discards + [|c.seen| - 1])
  }

  /** The loop of `dequeue` in the dropping state. The report of the inner `dodequeue` decides whether it goes on. */
  function DropLoop(c: Codel, now: nat): Codel
    decreases |c.queue|
  {
    if now < c.dropNext || !c.dropping || c.queue == [] then c
    else
      var (d, ok) := DoDequeue(c, now);
      var e := Discard(d).(count := d.count + 1);
      if !ok then e.(dropping := false)
      else DropLoop(e.(dropNext := ControlLaw(e.dropNext, e.interval, e.count)), now)
  }

  /** The first drop of a dropping state: `count_` resumes from the previous one if that was not long ago,
      compared in unsigned arithmetic. */
  function EnterDropping(c: Codel, now: nat): Codel
    requires c.queue != []
  {
    var d := Discard(DoDequeue(c, now).0);
    var delta := (d.count - d.lastCount) % UINT32;
    var count := if delta > 1 && (now - d.dropNext) % UINT64 < (16 * d.interval) % UINT32 then delta else 1;
    d.(dropping := true, count := count, lastCount := count, dropNext := ControlLaw(now, d.interval, count))
  }

  /** `dequeue`: the state it leaves; it returns the old head, since the inner `r` shadows the outer one. */
  function Dequeue(c: Codel, now: nat): Codel
    requires c.queue != []
  {
    var (d, ok) := DoDequeue(c, now);
    if d.dropping then
      if ok then DropLoop(d, now) else d.(dropping := false)
    else if ok then
      assert d.queue != [];
      EnterDropping(d, now)
    else d
  }

  // What a report to drop means

  predicate InTime(seen: seq<Observation>) {
    forall i, j | 0 <= i <= j < |seen| :: seen[i].time <= seen[j].time
  }

  /** From observation `i` to the last, every `dodequeue` saw long waits. */
  predicate AboveSince(target: nat, seen: seq<Observation>, i: nat) {
    forall j | i <= j < |seen| :: Above(target, seen[j])
  }

  /** `first_above_time_` is an interval after the first observation of the current stretch of long waits, 0 if there is none. */
  predicate FirstAbove(c: Codel, i: nat) {
    && i < |c.seen| && c.seen[i].time + c.interval == c.firstAbove && AboveSince(c.target, c.seen, i)
    && (i > 0 ==> !Above(c.target, c.seen[i - 1]))
  }

  ghost predicate Tracked(c: Codel) {
    if c.firstAbove == 0 then c.seen == [] || !Above(c.target, c.seen[|c.seen| - 1])
    else exists i :: FirstAbove(c, i)
  }

  /** At observation `k` the wait had been long for at least an interval, without a break. */
  predicate Persisted(target: nat, interval: nat, seen: seq<Observation>, k: nat) {
    k < |seen| && exists i | 0 <= i <= k ::
      seen[i].time + interval <= seen[k].time && forall j | i <= j <= k :: Above(target, seen[j])
  }

  /** A discard is covered if the `dodequeue` just before it, at the same time, reported a persistent queue. */
  predicate Covered(c: Codel, d: nat) {
    1 <= d < |c.seen| && c.seen[d - 1].time == c.seen[d].time && Persisted(c.target, c.interval, c.seen, d - 1)
  }

  /** What every operation keeps. */
  ghost predicate Valid(c: Codel) {
    && c.interval > 0 && c.limits.DropTail? && Good(c.limits, c.queue)
    && c.lastCount <= c.count && (c.dropping ==> c.count >= 1)
    && InTime(c.seen)
    && Tracked(c)
    && (forall d | d in c.discards :: Covered(c, d))
  }

  predicate NotBefore(c: Codel, now: nat) {
    c.seen == [] || c.seen[|c.seen| - 1].time <= now
  }

  lemma PersistedStays(target: nat, interval: nat, seen: seq<Observation>, o: Observation, k: nat)
    requires Persisted(target, interval, seen, k)
    ensures Persisted(target, interval, seen + [o], k)
  {
    var more := seen + [o];
    var i :| 0 <= i <= k && seen[i].time + interval <= seen[k].time && forall j | i <= j <= k :: Above(target, seen[j]);
    assert more[i].time + interval <= more[k].time && forall j | i <= j <= k :: Above(target, more[j]);
  }

  lemma CoveredStays(c: Codel, d: Codel, o: Observation)
    requires d.target == c.target && d.interval == c.interval && d.seen == c.seen + [o] && d.discards == c.discards
    requires forall k | k in c.discards :: Covered(c, k)
    ensures forall k | k in d.discards :: Covered(d, k)
  {
    forall k | k in d.discards ensures Covered(d, k) {
      assert Covered(c, k);
      PersistedStays(c.target, c.interval, c.seen, o, k - 1);
    }
  }

  lemma SuffixGood(d: Discipline, q: seq<Packet>)
    requires q != [] && Good(d, q)
    ensures Good(d, q[1..])
  {}

  /** History safety of one `dodequeue`: it reports to drop exactly if the queue has persisted for an interval. */
  lemma DoDequeueSafe(c: Codel, now: nat)
    requires Valid(c) && c.queue != [] && NotBefore(c, now)
    ensures var (d, ok) := DoDequeue(c, now);
            && Valid(d) && d.queue == c.queue[1..] && d.seen == c.seen + [Look(c, now)]
            && (ok <==> Persisted(d.target, d.interval, d.seen, |c.seen|)) && (ok ==> d.queue != [])
  {
    hide Sojourn, Good, Above, Persisted;
    var (d, ok) := DoDequeue(c, now);
    SuffixGood(c.limits, c.queue);
    CoveredStays(c, d, Look(c, now));
    assert InTime(d.seen);
    if c.queue[1..] == [] || !Above(c.target, Look(c, now)) {
      NotAbove(c, now);
    } else if c.firstAbove == 0 {
      NewlyAbove(c, now);
    } else {
      StillAbove(c, now);
    }
  }

  lemma NotAbove(c: Codel, now: nat)
    requires c.queue != [] && (c.queue[1..] == [] || !Above(c.target, Look(c, now)))
    ensures var (d, ok) := DoDequeue(c, now); Tracked(d) && !ok && !Persisted(d.target, d.interval, d.seen, |c.seen|)
  {
    hide Sojourn;
    var (d, ok) := DoDequeue(c, now);
    assert d.seen[|c.seen|] == Look(c, now);
  }

  lemma NewlyAbove(c: Codel, now: nat)
    requires Tracked(c) && c.interval > 0 && InTime(c.seen) && NotBefore(c, now)
    requires c.queue != [] && c.queue[1..] != [] && Above(c.target, Look(c, now)) && c.firstAbove == 0
    ensures var (d, ok) := DoDequeue(c, now); Tracked(d) && !ok && !Persisted(d.target, d.interval, d.seen, |c.seen|)
  {
    hide Sojourn, Above;
    var (d, ok) := DoDequeue(c, now);
    var k := |c.seen|;
    assert d.seen[k] == Look(c, now);
    assert k > 0 ==> d.seen[k - 1] == c.seen[k - 1];
    assert FirstAbove(d, k);
    forall i | 0 <= i <= k && d.seen[i].time + d.interval <= d.seen[k].time ensures exists j :: i <= j <= k && !Above(d.target, d.seen[j]) {
      assert i <= k - 1 <= k && !Above(d.target, d.seen[k - 1]);
    }
  }

  lemma StillAbove(c: Codel, now: nat)
    requires Tracked(c) && c.interval > 0 && InTime(c.seen) && NotBefore(c, now)
    requires c.queue != [] && c.queue[1..] != [] && Above(c.target, Look(c, now)) && c.firstAbove != 0
    ensures var (d, ok) := DoDequeue(c, now); Tracked(d) && (ok <==> Persisted(d.target, d.interval, d.seen, |c.seen|))
  {
    hide Sojourn, Above;
    var (d, ok) := DoDequeue(c, now);
    var k := |c.seen|;
    var i: nat :| FirstAbove(c, i);
    assert d.seen[k] == Look(c, now) && forall j | 0 <= j < k :: d.seen[j] == c.seen[j];
    assert FirstAbove(d, i);
    if Persisted(d.target, d.interval, d.seen, k) {
      var j: nat :| 0 <= j <= k && d.seen[j].time + d.interval <= d.seen[k].time && forall m | j <= m <= k :: Above(d.target, d.seen[m]);
      assert i > 0 ==> !Above(d.target, d.seen[i - 1]);
      assert j >= i;
      assert d.seen[i].time <= d.seen[j].time;
    }
  }

  /** The packets popped, in order. */
  function Packets(seen: seq<Observation>): seq<Packet> {
    seq(|seen|, i requires 0 <= i < |seen| => seen[i].packet)
  }

  lemma OnePopped(c: Codel, now: nat)
    requires c.queue != []
    ensures Packets(c.seen + [Look(c, now)]) + c.queue[1..] == Packets(c.seen) + c.queue
  {
    hide Sojourn;
    assert Packets(c.seen + [Look(c, now)]) == Packets(c.seen) + [c.queue[0]];
    assert c.queue == [c.queue[0]] + c.queue[1..];
  }

  /** `r` was reached from `c` by popping packets from the front, one observation each at time `now`. */
  predicate Popped(c: Codel, r: Codel, now: nat) {
    && |r.queue| <= |c.queue| && r.queue == c.queue[|c.queue| - |r.queue|..]
    && Packets(r.seen) + r.queue == Packets(c.seen) + c.queue
    && |r.seen| == |c.seen| + |c.queue| - |r.queue| && c.seen <= r.seen
    && (forall i | |c.seen| <= i < |r.seen| :: r.seen[i].time == now)
    && r.target == c.target && r.interval == c.interval && r.limits == c.limits
  }

  /** The last `dodequeue`, at time `now`, reported a persistent queue. */
  predicate JustReported(c: Codel, now: nat) {
    c.seen != [] && c.seen[|c.seen| - 1].time == now && Persisted(c.target, c.interval, c.seen, |c.seen| - 1)
  }

  lemma TrackedSame(c: Codel, d: Codel)
    requires d.seen == c.seen && d.target == c.target && d.interval == c.interval && d.firstAbove == c.firstAbove
    ensures Tracked(c) == Tracked(d)
  {
    forall i: nat ensures FirstAbove(c, i) == FirstAbove(d, i) {}
  }

  /** Popping and discarding one more packet right after a report is covered by that report. */
  lemma DiscardCovered(c: Codel, now: nat)
    requires Valid(c) && c.queue != [] && JustReported(c, now)
    ensures var (d, ok) := DoDequeue(c, now);
            var e := Discard(d);
            && Valid(e) && e.queue == c.queue[1..] && e.seen == c.seen + [Look(c, now)] && e.discards == c.discards + [|c.seen|]
            && (ok ==> e.queue != [] && JustReported(e, now))
  {
    hide Sojourn, Good, Valid, Persisted, DoDequeue;
    var (d, ok) := DoDequeue(c, now);
    DoDequeueSafe(c, now);
    PersistedStays(c.target, c.interval, c.seen, Look(c, now), |c.seen| - 1);
    DoDequeueFields(c, now);
    ValidWith(d, |c.seen|);
  }

  lemma DoDequeueFields(c: Codel, now: nat)
    requires c.queue != []
    ensures var d := DoDequeue(c, now).0; d == c.(queue := d.queue, seen := d.seen, firstAbove := d.firstAbove)
  {
    hide Sojourn;
  }

  /** One more covered discard. */
  lemma ValidWith(d: Codel, k: nat)
    requires Valid(d) && Covered(d, k)
    ensures Valid(d.(discards := d.discards + [k]))
  {
    hide Persisted, Good;
    var e := d.(discards := d.discards + [k]);
    TrackedSame(d, e);
    forall j | j in e.discards ensures Covered(e, j) {
      assert Covered(d, j);
    }
  }

  lemma CountersKept(c: Codel, d: Codel)
    requires Valid(c) && d == c.(count := d.count, lastCount := d.lastCount, dropping := d.dropping, dropNext := d.dropNext)
    requires d.lastCount <= d.count && (d.dropping ==> d.count >= 1)
    ensures Valid(d)
  {
    assert forall k | k in d.discards :: Covered(c, k) && Covered(d, k);
    TrackedSame(c, d);
  }

  /** One turn of the drop loop. */
  function DropTurn(c: Codel, now: nat): Codel
    requires c.queue != []
  {
    var (d, ok) := DoDequeue(c, now);
    var e := Discard(d).(count := d.count + 1);
    if !ok then e.(dropping := false) else e.(dropNext := ControlLaw(e.dropNext, e.interval, e.count))
  }

  lemma DropTurnSafe(c: Codel, now: nat)
    requires Valid(c) && c.queue != [] && c.dropping && JustReported(c, now)
    ensures var f := DropTurn(c, now);
            && Valid(f) && Popped(c, f, now) && f.queue == c.queue[1..] && |f.seen| == |c.seen| + 1
            && f.discards == c.discards + [|c.seen|]
            && (f.dropping ==> f.queue != [] && JustReported(f, now))
  {
    hide Sojourn, Valid, JustReported, ControlLaw;
    var (d, ok) := DoDequeue(c, now);
    DiscardCovered(c, now);
    ValidCounters(c);
    var f := DropTurn(c, now);
    CountersKept(Discard(d), f);
    OnePopped(c, now);
    if ok {
      SameReport(Discard(d), f, now);
    }
  }

  lemma PoppedChain(a: Codel, b: Codel, c: Codel, now: nat)
    requires Popped(a, b, now) && Popped(b, c, now)
    ensures Popped(a, c, now)
  {
    assert b.queue[|b.queue| - |c.queue|..] == a.queue[|a.queue| - |c.queue|..];
    forall i | |a.seen| <= i < |c.seen| ensures c.seen[i].time == now {
      if i < |b.seen| { assert b.seen[i] == c.seen[i]; }
    }
  }

  /** The positions `from`, `from + 1`, ... of `n` observations. */
  function Range(from: nat, n: nat): seq<nat> {
    seq(n, i => from + i)
  }

  lemma RangeHead(from: nat, n: nat)
    requires n > 0
    ensures Range(from, n) == [from] + Range(from + 1, n - 1)
  {}

  lemma {:induction false} DropLoopSafe(c: Codel, now: nat)
    requires Valid(c) && (c.dropping ==> c.queue != [] && JustReported(c, now))
    ensures var r := DropLoop(c, now);
            && Valid(r) && Popped(c, r, now)
            && r.discards == c.discards + Range(|c.seen|, |c.queue| - |r.queue|)
    decreases |c.queue|
  {
    hide Valid, JustReported, DropTurn, DoDequeue, ControlLaw, Discard;
    if now < c.dropNext || !c.dropping {
      assert c.discards + [] == c.discards;
    } else {
      var f := DropTurn(c, now);
      DropTurnSafe(c, now);
      DropLoopTurn(c, now);
      hide Popped, DropLoop, Range;
      DropLoopSafe(f, now);
      var r := DropLoop(f, now);
      PoppedChain(c, f, r, now);
      PoppedShrinks(f, r, now);
      RangeHead(|c.seen|, |c.queue| - |r.queue|);
      assert c.discards + ([|c.seen|] + Range(|f.seen|, |f.queue| - |r.queue|)) == f.discards + Range(|f.seen|, |f.queue| - |r.queue|);
    }
  }

  lemma PoppedShrinks(a: Codel, b: Codel, now: nat)
    requires Popped(a, b, now)
    ensures |b.queue| <= |a.queue|
  {}

  lemma DropLoopTurn(c: Codel, now: nat)
    requires c.dropping && now >= c.dropNext && c.queue != []
    ensures DropLoop(c, now) == DropLoop(DropTurn(c, now), now)
  {
    hide DoDequeue, ControlLaw;
  }

  lemma ValidCounters(c: Codel)
    requires Valid(c)
    ensures c.lastCount <= c.count && (c.dropping ==> c.count >= 1) && c.interval > 0 && c.limits.DropTail? && Good(c.limits, c.queue)
  {}

  lemma SameReport(c: Codel, d: Codel, now: nat)
    requires JustReported(c, now) && d.seen == c.seen && d.target == c.target && d.interval == c.interval
    ensures JustReported(d, now)
  {}

  /** `dequeue`: it returns the old head and leaves a suffix of the queue, never pops an empty queue, keeps the
      counters in order, and every packet it throws away was preceded, in this very call, by a report of a queue
      whose packets had waited too long for at least an interval. */
  lemma DequeueSafe(c: Codel, now: nat)
    requires Valid(c) && c.queue != [] && NotBefore(c, now)
    ensures var r := Dequeue(c, now);
            && Valid(r) && Popped(c, r, now) && NotBefore(r, now) && |r.queue| < |c.queue| && c.seen + [Look(c, now)] <= r.seen
            && r.discards == c.discards + Range(|c.seen| + 1, |c.queue| - |r.queue| - 1)
  {
    hide Sojourn, Valid, JustReported, ControlLaw, DropLoop, EnterDropping;
    var (d, ok) := DoDequeue(c, now);
    DoDequeueSafe(c, now);
    OnePopped(c, now);
    assert Popped(c, d, now);
    ValidCounters(d);
    var r := Dequeue(c, now);
    if ok {
      Reported(c, now);
      if d.dropping {
        DropLoopSafe(d, now);
      } else {
        EnterSafe(d, now);
      }
      PoppedChain(c, d, r, now);
    } else {
      CountersKept(d, d.(dropping := false));
      assert c.discards + [] == c.discards;
    }
  }

  lemma EnterSafe(d: Codel, now: nat)
    requires Valid(d) && d.queue != [] && JustReported(d, now)
    ensures var r := EnterDropping(d, now); Valid(r) && Popped(d, r, now) && |r.queue| == |d.queue| - 1 && r.discards == d.discards + Range(|d.seen|, 1)
  {
    hide Sojourn, Valid, JustReported, ControlLaw;
    DiscardCovered(d, now);
    CountersKept(Discard(DoDequeue(d, now).0), EnterDropping(d, now));
    OnePopped(d, now);
    assert Range(|d.seen|, 1) == [|d.seen|];
  }

  lemma Reported(c: Codel, now: nat)
    requires Valid(c) && c.queue != [] && NotBefore(c, now) && DoDequeue(c, now).1
    ensures JustReported(DoDequeue(c, now).0, now)
  {
    DoDequeueSafe(c, now);
  }

  // The pace of dropping

  /** More drops mean shorter steps. */
  lemma StepsShrink(t: nat, interval: nat, few: nat, many: nat)
    requires 1 <= few <= many
    ensures ControlLaw(t, interval, many) <= ControlLaw(t, interval, few)
  {
    var d := ControlLaw(t, interval, many) - t;
    var e := ControlLaw(t, interval, few) - t;
    if d > e {
      assert d >= e + 1;
      assert d * d >= (e + 1) * (e + 1) by { Square(e + 1, d); }
      assert d * d * many >= (e + 1) * (e + 1) * few by { Products((e + 1) * (e + 1), d * d, few, many); }
    }
  }

  lemma Square(a: nat, b: nat)
    requires a <= b
    ensures a * a <= b * b
  {}

  lemma Products(a: nat, b: nat, m: nat, n: nat)
    requires a <= b && m <= n
    ensures a * m <= b * n
  {}

  /** The drop loop counts every discard, stops only when no drop is due or the queue has recovered, and does not move the
      time of the next drop back. */
  lemma {:induction false} DropLoopPace(c: Codel, now: nat)
    requires Valid(c) && (c.dropping ==> c.queue != [] && JustReported(c, now))
    ensures var r := DropLoop(c, now);
            && r.count == c.count + |c.queue| - |r.queue| && r.lastCount == c.lastCount
            && (r.dropping ==> now < r.dropNext) && c.dropNext <= r.dropNext
    decreases |c.queue|
  {
    hide Valid, JustReported, DropTurn, DoDequeue, ControlLaw, Discard;
    if now >= c.dropNext && c.dropping {
      var f := DropTurn(c, now);
      DropTurnSafe(c, now);
      DropLoopTurn(c, now);
      DropTurnPace(c, now);
      DropLoopPace(f, now);
    }
  }

  lemma DropTurnPace(c: Codel, now: nat)
    requires c.queue != []
    ensures var f := DropTurn(c, now); f.count == c.count + 1 && f.lastCount == c.lastCount && c.dropNext <= f.dropNext
  {
    hide Sojourn, Above, ControlLaw;
  }

  // Whole runs

  datatype Event = Put(p: Packet) | Take(now: nat)

  /** `enqueue` is that of a drop-tail queue; LinkQueue asks `empty` before it dequeues. */
  function Happen(c: Codel, e: Event): Codel {
    match e
    case Put(p) => if Good(c.limits, c.queue + [p]) then c.(queue := c.queue + [p]) else c
    case Take(now) => if c.queue == [] then c else Dequeue(c, now)
  }

  function Run(c: Codel, es: seq<Event>): Codel
    decreases |es|
  {
    if es == [] then c else Run(Happen(c, es[0]), es[1..])
  }

  /** The clock of the queue does not go backwards. */
  predicate Clocked(c: Codel, es: seq<Event>) {
    && (forall i | 0 <= i < |es| && es[i].Take? :: NotBefore(c, es[i].now))
    && (forall i, j | 0 <= i <= j < |es| && es[i].Take? && es[j].Take? :: es[i].now <= es[j].now)
  }

  /** The arrivals that the limits leave room for. */
  function Accepted(c: Codel, es: seq<Event>): seq<Packet>
    decreases |es|
  {
    if es == [] then [] else News(c, es[0]) + Accepted(Happen(c, es[0]), es[1..])
  }

  function News(c: Codel, e: Event): seq<Packet> {
    if e.Put? && Good(c.limits, c.queue + [e.p]) then [e.p] else []
  }

  /** What the calls of `dequeue` return. */
  function Returned(c: Codel, es: seq<Event>): seq<Packet>
    decreases |es|
  {
    if es == [] then [] else Out(c, es[0]) + Returned(Happen(c, es[0]), es[1..])
  }

  function Out(c: Codel, e: Event): seq<Packet> {
    if e.Take? && c.queue != [] then [c.queue[0]] else []
  }

  /** The packets popped and not discarded, in order. */
  function Kept(seen: seq<Observation>, discards: seq<nat>): seq<Packet>
    decreases |seen|
  {
    if seen == [] then []
    else
      var k := |seen| - 1;
      Kept(seen[..k], discards) + if k in discards then [] else [seen[k].packet]
  }

  lemma {:induction false} KeptAgrees(seen: seq<Observation>, a: seq<nat>, b: seq<nat>)
    requires forall k: nat | k < |seen| :: k in a <==> k in b
    ensures Kept(seen, a) == Kept(seen, b)
    decreases |seen|
  {
    if seen != [] {
      KeptAgrees(seen[..|seen| - 1], a, b);
    }
  }

  /** Popping packets that are all discarded keeps none of them. */
  lemma {:induction false} KeptDiscarded(seen: seq<Observation>, discards: seq<nat>, n: nat)
    requires n <= |seen| && forall k: nat | n <= k < |seen| :: k in discards
    ensures Kept(seen, discards) == Kept(seen[..n], discards)
    decreases |seen|
  {
    if n < |seen| {
      var k := |seen| - 1;
      KeptDiscarded(seen[..k], discards, n);
      assert seen[..k][..n] == seen[..n];
    } else {
      assert seen[..n] == seen;
    }
  }

  /** One `dequeue` keeps the first packet it pops: the one it returns. */
  lemma DequeueKept(c: Codel, now: nat)
    requires Valid(c) && c.queue != [] && NotBefore(c, now)
    ensures var r := Dequeue(c, now); Kept(r.seen, r.discards) == Kept(c.seen, c.discards) + [c.queue[0]]
  {
    DequeueSafe(c, now);
    DiscardsBehind(c);
    hide Dequeue, Sojourn, Valid, Kept;
    var r, n := Dequeue(c, now), |c.seen|;
    DequeueDiscards(c, now);
    KeptDiscarded(r.seen, r.discards, n + 1);
    KeptOne(c.seen, Look(c, now), r.discards);
    KeptAgrees(c.seen, r.discards, c.discards);
  }

  lemma KeptOne(seen: seq<Observation>, o: Observation, discards: seq<nat>)
    requires |seen| !in discards
    ensures Kept(seen + [o], discards) == Kept(seen, discards) + [o.packet]
  {
    assert (seen + [o])[..|seen|] == seen;
  }

  lemma DequeueDiscards(c: Codel, now: nat)
    requires Valid(c) && c.queue != [] && NotBefore(c, now)
    ensures var r, n := Dequeue(c, now), |c.seen|;
            && n < |r.seen| && r.seen[..n + 1] == c.seen + [Look(c, now)]
            && (forall k: nat | k in r.discards && k !in c.discards :: k > n)
            && (forall k: nat | k in c.discards || n < k < |r.seen| :: k in r.discards)
  {
    DequeueSafe(c, now);
    hide Dequeue, Sojourn, Valid, Look, Range;
    var r := Dequeue(c, now);
    WithRange(c.discards, |c.seen| + 1, |c.queue| - |r.queue| - 1);
  }

  lemma WithRange(a: seq<nat>, from: nat, n: nat)
    ensures forall k: nat | k in a + Range(from, n) && k !in a :: k >= from
    ensures forall k: nat | k in a || from <= k < from + n :: k in a + Range(from, n)
  {
    forall k: nat | from <= k < from + n ensures k in Range(from, n) {
      assert Range(from, n)[k - from] == k;
    }
  }

  lemma DiscardsBehind(c: Codel)
    requires Valid(c)
    ensures forall k | k in c.discards :: k < |c.seen|
  {
    forall k | k in c.discards ensures k < |c.seen| { assert Covered(c, k); }
  }

  /** In every run from a valid queue the invariant holds, so every discard in the whole history is covered by a report of a
      persistent queue in the same call; the packets popped followed by those queued are those at the start followed by the
      accepted arrivals, in order; and the packets popped and not discarded are those that `dequeue` returned. */
  lemma {:induction false} RunSafe(c: Codel, es: seq<Event>)
    requires Valid(c) && Clocked(c, es)
    ensures var r := Run(c, es);
            && Valid(r) && r.target == c.target && r.interval == c.interval
            && Packets(r.seen) + r.queue == Packets(c.seen) + c.queue + Accepted(c, es)
            && Kept(r.seen, r.discards) == Kept(c.seen, c.discards) + Returned(c, es)
    decreases |es|
  {
    if es == [] {
      assert Packets(c.seen) + c.queue + [] == Packets(c.seen) + c.queue;
      assert Kept(c.seen, c.discards) + [] == Kept(c.seen, c.discards);
    } else {
      HappenSafe(c, es[0]);
      ClockedRest(c, es);
      hide Valid, Happen, Clocked, News, Out, Packets, Kept;
      var d, rest := Happen(c, es[0]), es[1..];
      RunSafe(d, rest);
      Assoc(Packets(c.seen) + c.queue, News(c, es[0]), Accepted(d, rest));
      Assoc(Kept(c.seen, c.discards), Out(c, es[0]), Returned(d, rest));
    }
  }

  lemma ClockedRest(c: Codel, es: seq<Event>)
    requires Valid(c) && Clocked(c, es) && es != []
    ensures Clocked(Happen(c, es[0]), es[1..]) && (es[0].Take? ==> NotBefore(c, es[0].now))
  {
    HappenTime(c, es[0]);
    hide Valid, Happen;
    var rest := es[1..];
    assert forall i | 0 <= i < |rest| :: rest[i] == es[i + 1];
  }

  lemma HappenTime(c: Codel, e: Event)
    requires Valid(c) && (e.Take? ==> NotBefore(c, e.now))
    ensures var d := Happen(c, e); if e.Take? && c.queue != [] then forall t | e.now <= t :: NotBefore(d, t) else d.seen == c.seen
  {
    if e.Take? && c.queue != [] {
      hide Dequeue, Valid;
      DequeueSafe(c, e.now);
    }
  }

  lemma HappenSafe(c: Codel, e: Event)
    requires Valid(c) && (e.Take? ==> NotBefore(c, e.now))
    ensures var d := Happen(c, e);
            && Valid(d) && d.target == c.target && d.interval == c.interval
            && Packets(d.seen) + d.queue == Packets(c.seen) + c.queue + News(c, e)
            && Kept(d.seen, d.discards) == Kept(c.seen, c.discards) + Out(c, e)
  {
    assert Packets(c.seen) + c.queue + [] == Packets(c.seen) + c.queue;
    match e
    case Take(now) =>
      if c.queue != [] {
        hide Dequeue, Valid, Packets, Kept;
        DequeueSafe(c, now);
        DequeueKept(c, now);
      } else {
        assert Kept(c.seen, c.discards) + [] == Kept(c.seen, c.discards);
      }
    case Put(p) =>
      assert Kept(c.seen, c.discards) + [] == Kept(c.seen, c.discards);
      PutSafe(c, p);
  }

  lemma PutSafe(c: Codel, p: Packet)
    requires Valid(c)
    ensures Valid(Happen(c, Put(p)))
    ensures Packets(c.seen) + c.queue + News(c, Put(p)) == Packets(c.seen) + Happen(c, Put(p)).queue
  {
    hide Good;
    var d := Happen(c, Put(p));
    assert forall k | k in c.discards :: Covered(c, k) && Covered(d, k);
    TrackedSame(c, d);
  }

  /** The history of a new queue: what it ever took is what it returned, discarded or still holds, in order, and it discards only
      after a persistent queue. */
  lemma HistorySafe(target: nat, interval: nat, limits: Discipline, es: seq<Event>)
    requires interval > 0 && limits.DropTail? && Clocked(New(target, interval, limits), es)
    ensures var r := Run(New(target, interval, limits), es);
            && (forall d | d in r.discards :: Covered(r, d))
            && Packets(r.seen) + r.queue == Accepted(New(target, interval, limits), es)
            && Kept(r.seen, r.discards) == Returned(New(target, interval, limits), es)
  {
    hide Run, Accepted, Returned, Clocked, Happen;
    var c := New(target, interval, limits);
    assert Valid(c);
    RunSafe(c, es);
    assert Packets([]) == [] && Kept([], []) == [];
    assert [] + [] + Accepted(c, es) == Accepted(c, es) && [] + Returned(c, es) == Returned(c, es);
  }

  lemma CoveredDiscards(c: Codel)
    requires Valid(c)
    ensures forall d | d in c.discards :: 1 <= d && Persisted(c.target, c.interval, c.seen, d - 1)
  {
    hide Persisted;
    forall d | d in c.discards ensures 1 <= d && Persisted(c.target, c.interval, c.seen, d - 1) { assert Covered(c, d); }
  }

  // The class

  class CODELPacketQueue {
    const target: nat
    const interval: nat
    const base: PacketQueue
    var firstAboveTime: nat
    var dropNext: nat
    var count: nat
    var lastcount: nat
    var dropping: bool
    ghost var seen: seq<Observation>
    ghost var discards: seq<nat>

    ghost function View(): Codel
      reads this, base
    {
      Codel(target, interval, base.discipline, base.internalQueue, firstAboveTime, dropNext, count, lastcount, dropping, seen, discards)
    }

    ghost predicate Ok()
      reads this, base
    {
      base.Valid() && Valid(View())
    }

    /** The constructor throws unless `target`, `interval` and a limit are given. */
    constructor (target: nat, interval: nat, packets: nat, bytes: nat)
      requires target != 0 && interval != 0 && (packets != 0 || bytes != 0)
      ensures Ok() && View() == New(target, interval, DropTail(packets, bytes)) && fresh(base)
    {
      this.target, this.interval := target, interval;
      firstAboveTime, dropNext, count, lastcount, dropping := 0, 0, 0, 0, false;
      seen, discards := [], [];
      base := new PacketQueue(DropTail(packets, bytes));
    }

    /** `dodequeue`. */
    method DoDequeueInPlace(now: nat) returns (p: Packet, okToDrop: bool)
      requires base.Valid() && base.internalQueue != []
      modifies this`firstAboveTime, this`seen, base
      ensures base.Valid() && seen != [] && p == old(base.internalQueue)[0]
      ensures (View(), okToDrop) == DoDequeue(old(View()), now)
    {
      hide Good;
      ghost var before := View();
      seen := seen + [Look(View(), now)];
      var ok;
      ok, p := base.Dequeue();
      okToDrop := false;
      if base.internalQueue == [] {
        firstAboveTime := 0;
        return;
      }
      var sojournTime := (now - p.arrival) % UINT64;
      if sojournTime < target || base.queueSizeInBytes <= PACKET_SIZE {
        firstAboveTime := 0;
      } else if firstAboveTime == 0 {
        firstAboveTime := now + interval;
      } else if now >= firstAboveTime {
        okToDrop := true;
      }
    }

    /** `dequeue`: returns the old head of the queue. */
    method DequeuePacket(now: nat) returns (p: Packet)
      requires Ok() && base.internalQueue != [] && NotBefore(View(), now)
      modifies this, base
      ensures Ok() && View() == Dequeue(old(View()), now) && p == old(base.internalQueue)[0]
    {
      hide DoDequeue, Valid, JustReported, ControlLaw, Good;
      DoDequeueSafe(View(), now);
      DequeueSafe(View(), now);
      assert DoDequeue(View(), now).1 ==> JustReported(DoDequeue(View(), now).0, now) by {
        if DoDequeue(View(), now).1 { Reported(View(), now); }
      }
      var okToDrop;
      p, okToDrop := DoDequeueInPlace(now);
      if dropping {
        if !okToDrop {
          dropping := false;
        } else {
          DropInPlace(now);
        }
      } else if okToDrop {
        EnterInPlace(now);
      }
    }

    method EnterInPlace(now: nat)
      requires base.Valid() && base.internalQueue != []
      modifies this, base
      ensures base.Valid() && View() == EnterDropping(old(View()), now)
    {
      hide DoDequeue, ControlLaw;
      var dropped, ok := DoDequeueInPlace(now);
      discards := discards + [|seen| - 1];
      dropping := true;
      var delta := (count - lastcount) % UINT32;
      count := if delta > 1 && (now - dropNext) % UINT64 < (16 * interval) % UINT32 then delta else 1;
      dropNext := ControlLaw(now, interval, count);
      lastcount := count;
    }

    /** The drop loop. */
    method DropInPlace(now: nat)
      requires Ok() && (dropping ==> base.internalQueue != [] && JustReported(View(), now))
      modifies this, base
      ensures Ok() && View() == DropLoop(old(View()), now)
    {
      hide DoDequeue, Valid, JustReported, ControlLaw, DropLoop, DropTurn;
      ghost var target' := DropLoop(View(), now);
      while now >= dropNext && dropping
        invariant Ok() && (dropping ==> base.internalQueue != [] && JustReported(View(), now))
        invariant DropLoop(View(), now) == target'
        decreases |base.internalQueue|
      {
        DropLoopTurn(View(), now);
        DropTurnSafe(View(), now);
        DropOneInPlace(now);
      }
      DropLoopEnds(View(), now);
    }

    method DropOneInPlace(now: nat)
      requires base.Valid() && base.internalQueue != []
      modifies this, base
      ensures base.Valid() && View() == DropTurn(old(View()), now)
    {
      hide ControlLaw, Good;
      var dropped, ok := DoDequeueInPlace(now);
      discards := discards + [|seen| - 1];
      count := count + 1;
      if !ok {
        dropping := false;
      } else {
        dropNext := ControlLaw(dropNext, interval, count);
      }
    }

    /** `enqueue`. */
    method EnqueuePacket(p: Packet)
      requires Ok()
      modifies base
      ensures Ok() && View() == Happen(old(View()), Put(p))
    {
      hide Good;
      HappenSafe(View(), Put(p));
      DropTailTakes(base.discipline, base.internalQueue, p);
      var ok := base.EnqueuePacket(p);
    }
  }

  lemma DropLoopEnds(c: Codel, now: nat)
    requires now < c.dropNext || !c.dropping
    ensures DropLoop(c, now) == c
  {}
}
