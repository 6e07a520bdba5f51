/** The CoDel queue as the link runs it: packets are stamped by one clock and the queue reads another. */
module CodelClocks {
  import opened PacketQueues
  import opened Widths
  import opened CodelQueue

  // LinkQueue stamps packets with the wall clock while CoDel reads the time since start: a packet that arrived at
  // time `a` since start is stamped `start + a`.

  /** What the subtraction gives, and exactly when its comparison with the target comes out as that of the true wait would: while
      the packet has waited less than the wall time of the start the computed time is enormous, and after that it is short by that time. */
  lemma SojournAcrossClocks(contents: string, start: nat, arrived: nat, now: nat, target: nat)
    requires arrived <= now && now - arrived < UINT64 && start <= UINT64 - UINT32 && target < UINT32
    ensures var wait, computed := now - arrived, Sojourn(now, Packet(contents, start + arrived));
            && computed == (if wait < start then UINT64 - start + wait else wait - start)
            && ((computed >= target <==> wait >= target) <==>
                if wait < start then wait >= target else wait < target || wait >= start + target)
  {
    var d := now - (start + arrived);
    if now - arrived < start {
      assert d == -1 * UINT64 + (UINT64 - start + (now - arrived));
    }
  }

  /** Packets with such stamps, all waiting less than the wall time of the start. */
  predicate WallStamped(q: seq<Packet>, start: nat, now: nat) {
    forall p | p in q :: now < p.arrival <= start + now
  }

  predicate AnyTarget(target: nat, start: nat) {
    target < UINT32 && start <= UINT64 - UINT32
  }

  predicate LongWaits(c: Codel) {
    forall o | o in c.seen :: o.sojourn >= c.target
  }

  function Untargeted(c: Codel): Codel {
    c.(target := 0)
  }

  lemma StampedWait(p: Packet, start: nat, now: nat)
    requires now < p.arrival <= start + now && start <= UINT64 - UINT32
    ensures Sojourn(now, p) >= UINT32
  {
    assert now - p.arrival == -1 * UINT64 + (UINT64 + now - p.arrival);
  }

  /** One `dodequeue` then does what it would with a target of zero. */
  lemma DoDequeueUntargeted(c: Codel, start: nat, now: nat)
    requires AnyTarget(c.target, start) && c.queue != [] && WallStamped(c.queue, start, now) && LongWaits(c)
    ensures var (d, ok) := DoDequeue(c, now);
            && DoDequeue(Untargeted(c), now) == (Untargeted(d), ok)
            && LongWaits(d) && WallStamped(d.queue, start, now) && d.target == c.target
  {
    hide Sojourn;
    StampedWait(c.queue[0], start, now);
  }

  /** Over time since start, more than one packet's worth of bytes stayed queued for an interval. */
  predicate BytesPersisted(interval: nat, seen: seq<Observation>, k: nat) {
    k < |seen| && exists i | 0 <= i <= k ::
      seen[i].time + interval <= seen[k].time && forall j | i <= j <= k :: seen[j].bytesLeft > PACKET_SIZE
  }

  lemma LongWaitsPersist(c: Codel, k: nat)
    requires LongWaits(c)
    ensures Persisted(c.target, c.interval, c.seen, k) <==> BytesPersisted(c.interval, c.seen, k)
  {
    forall j | 0 <= j < |c.seen| ensures Above(c.target, c.seen[j]) <==> c.seen[j].bytesLeft > PACKET_SIZE {
      assert c.seen[j] in c.seen;
    }
  }

  /** So the report to drop depends on the bytes queued alone: it comes exactly if more than one packet's worth stayed queued
      for an interval, however short the packets waited. */
  lemma ReportAcrossClocks(c: Codel, start: nat, now: nat)
    requires Valid(c) && NotBefore(c, now) && AnyTarget(c.target, start)
    requires c.queue != [] && WallStamped(c.queue, start, now) && LongWaits(c)
    ensures DoDequeue(c, now).1 <==> BytesPersisted(c.interval, c.seen + [Look(c, now)], |c.seen|)
  {
    hide Sojourn, Valid, Persisted, BytesPersisted;
    DoDequeueSafe(c, now);
    DoDequeueUntargeted(c, start, now);
    DoDequeueFields(c, now);
    LongWaitsPersist(DoDequeue(c, now).0, |c.seen|);
  }

  lemma {:induction false} DropLoopUntargeted(c: Codel, start: nat, now: nat)
    requires AnyTarget(c.target, start) && WallStamped(c.queue, start, now) && LongWaits(c)
    ensures var r := DropLoop(c, now);
            && DropLoop(Untargeted(c), now) == Untargeted(r)
            && LongWaits(r) && WallStamped(r.queue, start, now) && r.target == c.target
    decreases |c.queue|
  {
    hide DoDequeue, ControlLaw, WallStamped, DropTurn;
    if now >= c.dropNext && c.dropping && c.queue != [] {
      DropTurnUntargeted(c, start, now);
      DropLoopTurn(c, now);
      DropLoopTurn(Untargeted(c), now);
      DropLoopUntargeted(DropTurn(c, now), start, now);
    }
  }

  lemma DropTurnUntargeted(c: Codel, start: nat, now: nat)
    requires AnyTarget(c.target, start) && c.queue != [] && WallStamped(c.queue, start, now) && LongWaits(c)
    ensures var f := DropTurn(c, now);
            && DropTurn(Untargeted(c), now) == Untargeted(f) && |f.queue| < |c.queue|
            && LongWaits(f) && WallStamped(f.queue, start, now) && f.target == c.target
  {
    hide DoDequeue, ControlLaw, WallStamped;
    DoDequeueUntargeted(c, start, now);
    DoDequeueShorter(c, now);
  }

  lemma DoDequeueShorter(c: Codel, now: nat)
    requires c.queue != []
    ensures |DoDequeue(c, now).0.queue| < |c.queue| && DoDequeue(c, now).0.seen != []
  {
    hide Sojourn;
  }

  lemma DequeueUntargeted(c: Codel, start: nat, now: nat)
    requires AnyTarget(c.target, start) && c.queue != [] && WallStamped(c.queue, start, now) && LongWaits(c)
    ensures var r := Dequeue(c, now);
            && Dequeue(Untargeted(c), now) == Untargeted(r)
            && LongWaits(r) && WallStamped(r.queue, start, now) && r.target == c.target
  {
    hide DoDequeue, DropLoop, EnterDropping, WallStamped;
    DoDequeueUntargeted(c, start, now);
    var (d, ok) := DoDequeue(c, now);
    ReportedQueue(c, now);
    DropLoopUntargeted(d, start, now);
    if ok && !d.dropping {
      EnterUntargeted(d, start, now);
    }
  }

  lemma ReportedQueue(c: Codel, now: nat)
    requires c.queue != []
    ensures DoDequeue(c, now).1 ==> DoDequeue(c, now).0.queue != []
  {
    hide Sojourn;
  }

  lemma EnterUntargeted(c: Codel, start: nat, now: nat)
    requires AnyTarget(c.target, start) && c.queue != [] && WallStamped(c.queue, start, now) && LongWaits(c)
    ensures var r := EnterDropping(c, now);
            && EnterDropping(Untargeted(c), now) == Untargeted(r)
            && LongWaits(r) && WallStamped(r.queue, start, now) && r.target == c.target
  {
    hide DoDequeue, ControlLaw, WallStamped;
    DoDequeueUntargeted(c, start, now);
    DoDequeueShorter(c, now);
    DoDequeueShorter(Untargeted(c), now);
  }

  /** Whenever a packet leaves, all that are queued have such stamps. */
  predicate RunStamped(c: Codel, es: seq<Event>, start: nat)
    decreases |es|
  {
    es == [] || ((es[0].Take? ==> WallStamped(c.queue, start, es[0].now)) && RunStamped(Happen(c, es[0]), es[1..], start))
  }

  /** In the link as built the target has no effect: over every run with such stamps the queue does what it would with a target of
      zero, and a discard implies an interval of more than one packet's worth of bytes queued and nothing about waits. */
  lemma RunAcrossClocks(c: Codel, es: seq<Event>, start: nat)
    requires Valid(c) && Clocked(c, es) && AnyTarget(c.target, start) && RunStamped(c, es, start) && LongWaits(c)
    ensures Run(Untargeted(c), es) == Untargeted(Run(c, es))
    ensures var r := Run(c, es); forall d | d in r.discards :: 1 <= d && BytesPersisted(r.interval, r.seen, d - 1)
  {
    hide Valid, RunStamped, LongWaits, Persisted, BytesPersisted, Run;
    RunUntargeted(c, es, start);
    RunSafe(c, es);
    var r := Run(c, es);
    CoveredDiscards(r);
    forall d | d in r.discards ensures 1 <= d && BytesPersisted(r.interval, r.seen, d - 1) {
      LongWaitsPersist(r, d - 1);
    }
  }

  lemma {:induction false} RunUntargeted(c: Codel, es: seq<Event>, start: nat)
    requires AnyTarget(c.target, start) && RunStamped(c, es, start) && LongWaits(c)
    ensures Run(Untargeted(c), es) == Untargeted(Run(c, es)) && LongWaits(Run(c, es))
    decreases |es|
  {
    hide Dequeue, WallStamped, LongWaits, Good;
    if es != [] {
      match es[0] {
        case Put(p) => PutUntargeted(c, p);
        case Take(now) => if c.queue != [] { DequeueUntargeted(c, start, now); }
      }
      hide Happen;
      RunUntargeted(Happen(c, es[0]), es[1..], start);
    }
  }

  lemma PutUntargeted(c: Codel, p: Packet)
    ensures var d := Happen(c, Put(p));
            Happen(Untargeted(c), Put(p)) == Untargeted(d) && d.target == c.target && (LongWaits(c) ==> LongWaits(d))
  {
    hide Good;
  }

  // A run that discards a packet that waited two milliseconds, with a target of five

  function Bulk(stamp: nat): Packet {
    Packet(seq(PACKET_SIZE, _ => ' '), stamp)
  }

  /** Packets that arrived at the times `ts` since start. */
  function Line(start: nat, ts: seq<nat>): seq<Packet> {
    seq(|ts|, i requires 0 <= i < |ts| => Bulk(start + ts[i]))
  }

  lemma {:induction false} LineBytes(start: nat, ts: seq<nat>)
    ensures Bytes(Line(start, ts)) == |ts| * PACKET_SIZE
    decreases |ts|
  {
    if ts != [] {
      LineRest(start, ts);
      LineBytes(start, ts[1..]);
    }
  }

  lemma LineRest(start: nat, ts: seq<nat>)
    requires ts != []
    ensures Line(start, ts)[1..] == Line(start, ts[1..]) && Line(start, ts) != []
    ensures Line(start, ts)[0] == Bulk(start + ts[0]) && |Line(start, ts)[0].contents| == PACKET_SIZE
  {}

  const ROOM: Discipline := DropTail(10, 0)

  /** Not dropping yet. */
  predicate Quiet(c: Codel, start: nat, ts: seq<nat>, firstAbove: nat, looks: nat) {
    && c.target == 5 && c.interval == 100 && c.limits == ROOM && !c.dropping && c.discards == []
    && c.queue == Line(start, ts) && c.firstAbove == firstAbove && |c.seen| == looks
  }

  lemma QuietPut(c: Codel, start: nat, ts: seq<nat>, firstAbove: nat, looks: nat, t: nat)
    requires Quiet(c, start, ts, firstAbove, looks) && |ts| < 10
    ensures Quiet(Happen(c, Put(Bulk(start + t))), start, ts + [t], firstAbove, looks)
  {
    hide Bulk, Bytes;
    assert Line(start, ts) + [Bulk(start + t)] == Line(start, ts + [t]);
  }

  /** The value of `first_above_time_` after a look that does not report. */
  function NextAbove(long: bool, firstAbove: nat, now: nat): nat {
    if !long then 0 else if firstAbove == 0 then now + 100 else firstAbove
  }

  predicate Long(start: nat, t: nat, now: nat) {
    Sojourn(now, Bulk(start + t)) >= 5
  }

  lemma QuietLook(c: Codel, start: nat, ts: seq<nat>, firstAbove: nat, looks: nat, now: nat)
    requires Quiet(c, start, ts, firstAbove, looks) && |ts| >= 3
    ensures var (d, ok) := DoDequeue(c, now);
            && Quiet(d, start, ts[1..], NextAbove(Long(start, ts[0], now), firstAbove, now), looks + 1)
            && (ok <==> Long(start, ts[0], now) && firstAbove != 0 && now >= firstAbove)
            && d.seen[looks] == Look(c, now)
  {
    hide Bulk, Bytes, Sojourn;
    LineRest(start, ts);
    LineBytes(start, ts[1..]);
    assert Line(start, ts[1..]) != [];
  }

  lemma QuietTake(c: Codel, start: nat, ts: seq<nat>, firstAbove: nat, looks: nat, now: nat)
    requires Quiet(c, start, ts, firstAbove, looks) && |ts| >= 3
    requires Long(start, ts[0], now) && firstAbove != 0 ==> now < firstAbove
    ensures Quiet(Happen(c, Take(now)), start, ts[1..], NextAbove(Long(start, ts[0], now), firstAbove, now), looks + 1)
  {
    hide Bulk, Sojourn, DoDequeue, DropLoop, EnterDropping;
    LineRest(start, ts);
    QuietLook(c, start, ts, firstAbove, looks, now);
  }

  /** The packet behind the head is discarded. */
  lemma LoudTake(c: Codel, start: nat, ts: seq<nat>, firstAbove: nat, looks: nat, now: nat)
    requires Quiet(c, start, ts, firstAbove, looks) && |ts| >= 3
    requires Long(start, ts[0], now) && firstAbove != 0 && now >= firstAbove
    ensures var r := Happen(c, Take(now));
            && r.discards == [looks + 1] && |r.seen| == looks + 2
            && r.seen[looks].packet == Bulk(start + ts[0])
            && r.seen[looks + 1].packet == Bulk(start + ts[1]) && r.seen[looks].time == r.seen[looks + 1].time == now
  {
    hide Bulk, Sojourn, DropLoop;
    LineRest(start, ts);
    LineRest(start, ts[1..]);
    QuietLook(c, start, ts, firstAbove, looks, now);
    var d := DoDequeue(c, now).0;
    hide DoDequeue, Quiet;
    EnterDiscards(d, now);
  }

  lemma EnterDiscards(d: Codel, now: nat)
    requires d.queue != []
    ensures var r := EnterDropping(d, now); r.discards == d.discards + [|d.seen|] && r.seen == d.seen + [Look(d, now)]
  {
    hide Sojourn, ControlLaw;
  }

  /** Three packets when the queue starts and one taken; three more at 98, the old ones taken; one taken at 100. */
  function Scenario(start: nat): seq<Event> {
    [Put(Bulk(start)), Put(Bulk(start)), Put(Bulk(start)), Take(0),
     Put(Bulk(start + 98)), Put(Bulk(start + 98)), Put(Bulk(start + 98)), Take(98), Take(98), Take(100)]
  }

  /** Before the last event. */
  lemma ScenarioQuiet(start: nat) returns (c: Codel)
    requires start == 0 || 100 < start <= UINT64 - UINT32
    ensures Quiet(c, start, [98, 98, 98], if start == 0 then 198 else 100, 3)
    ensures Run(New(5, 100, ROOM), Scenario(start)) == Happen(c, Take(100))
  {
    hide Quiet, Scenario, Run;
    var c4 := FirstHalf(start);
    c := SecondHalf(c4, start, if start == 0 then 0 else 100);
  }

  lemma FirstHalf(start: nat) returns (c: Codel)
    requires start == 0 || 100 < start <= UINT64 - UINT32
    ensures Quiet(c, start, [0, 0], if start == 0 then 0 else 100, 1)
    ensures |Scenario(start)| >= 4 && Run(New(5, 100, ROOM), Scenario(start)) == Run(c, Scenario(start)[4..])
  {
    hide Happen, Bulk, Quiet, Long, Run;
    var es := Scenario(start);
    var c0 := New(5, 100, ROOM);
    NewQuiet(start);
    LongOrNot(start);
    var c3 := ThreePuts(c0, start, es);
    QuietTake(c3, start, [0, 0, 0], 0, 0, 0);
    assert [0, 0, 0][1..] == [0, 0];
    c := Happen(c3, es[3]);
    RunFour(c0, Happen(c0, es[0]), Happen(Happen(c0, es[0]), es[1]), c3, c, es);
  }

  lemma ThreePuts(c0: Codel, start: nat, es: seq<Event>) returns (c3: Codel)
    requires Quiet(c0, start, [], 0, 0) && |es| >= 3 && es[0] == es[1] == es[2] == Put(Bulk(start))
    ensures c3 == Happen(Happen(Happen(c0, es[0]), es[1]), es[2]) && Quiet(c3, start, [0, 0, 0], 0, 0)
  {
    hide Happen, Bulk, Quiet;
    QuietPut(c0, start, [], 0, 0, 0);
    var c1 := Happen(c0, es[0]);
    assert [] + [0] == [0];
    QuietPut(c1, start, [0], 0, 0, 0);
    var c2 := Happen(c1, es[1]);
    assert [0] + [0] == [0, 0];
    QuietPut(c2, start, [0, 0], 0, 0, 0);
    c3 := Happen(c2, es[2]);
    assert [0, 0] + [0] == [0, 0, 0];
  }

  lemma NewQuiet(start: nat)
    ensures Quiet(New(5, 100, ROOM), start, [], 0, 0)
  {}

  lemma LongOrNot(start: nat)
    requires start == 0 || 100 < start <= UINT64 - UINT32
    ensures if start == 0 then !Long(0, 0, 0) && Long(0, 0, 98) && !Long(0, 98, 100)
            else Long(start, 0, 0) && Long(start, 0, 98) && Long(start, 98, 100)
  {
    if start > 0 {
      hide Sojourn;
      StampedWait(Bulk(start + 0), start, 0);
      StampedWait(Bulk(start + 0), start, 98);
      StampedWait(Bulk(start + 98), start, 100);
    }
  }

  lemma RunFour(c0: Codel, c1: Codel, c2: Codel, c3: Codel, c4: Codel, es: seq<Event>)
    requires |es| >= 4 && c1 == Happen(c0, es[0]) && c2 == Happen(c1, es[1]) && c3 == Happen(c2, es[2]) && c4 == Happen(c3, es[3])
    ensures Run(c0, es) == Run(c4, es[4..])
  {
    hide Happen;
    assert es[1..][1..] == es[2..] && es[2..][1..] == es[3..] && es[3..][1..] == es[4..];
    assert Run(c2, es[2..]) == Run(c3, es[3..]) == Run(c4, es[4..]);
  }

  lemma SecondHalf(c4: Codel, start: nat, firstAbove: nat) returns (c: Codel)
    requires start == 0 || 100 < start <= UINT64 - UINT32
    requires Quiet(c4, start, [0, 0], firstAbove, 1) && firstAbove == if start == 0 then 0 else 100
    ensures Quiet(c, start, [98, 98, 98], if start == 0 then 198 else 100, 3)
    ensures Run(c4, Scenario(start)[4..]) == Happen(c, Take(100))
  {
    hide Happen, Bulk, Quiet, Long;
    LongOrNot(start);
    var es := Scenario(start)[4..];
    QuietPut(c4, start, [0, 0], firstAbove, 1, 98);
    var c5 := Happen(c4, es[0]);
    assert [0, 0] + [98] == [0, 0, 98];
    QuietPut(c5, start, [0, 0, 98], firstAbove, 1, 98);
    var c6 := Happen(c5, es[1]);
    assert [0, 0, 98] + [98] == [0, 0, 98, 98];
    QuietPut(c6, start, [0, 0, 98, 98], firstAbove, 1, 98);
    var c7 := Happen(c6, es[2]);
    assert [0, 0, 98, 98] + [98] == [0, 0, 98, 98, 98];
    QuietTake(c7, start, [0, 0, 98, 98, 98], firstAbove, 1, 98);
    var c8 := Happen(c7, es[3]);
    assert [0, 0, 98, 98, 98][1..] == [0, 98, 98, 98];
    RunFour(c4, c5, c6, c7, c8, es);
    c := LastQuiet(c8, start, if start == 0 then 198 else 100, es[4..]);
  }

  lemma LastQuiet(c8: Codel, start: nat, firstAbove: nat, es: seq<Event>) returns (c: Codel)
    requires start == 0 || 100 < start <= UINT64 - UINT32
    requires Quiet(c8, start, [0, 98, 98, 98], firstAbove, 2) && firstAbove == (if start == 0 then 198 else 100)
    requires es == [Take(98), Take(100)]
    ensures Quiet(c, start, [98, 98, 98], firstAbove, 3) && Run(c8, es) == Happen(c, Take(100))
  {
    hide Happen, Quiet, Long;
    LongOrNot(start);
    QuietTake(c8, start, [0, 98, 98, 98], firstAbove, 2, 98);
    assert [0, 98, 98, 98][1..] == [98, 98, 98];
    c := Happen(c8, Take(98));
    assert es[1..] == [Take(100)] && es[1..][1..] == [];
    assert Run(c, es[1..]) == Run(Happen(c, Take(100)), []);
  }

  /** With the stamps of the wall clock the packet discarded at 100 arrived at 98; with stamps of its own clock, for which the target
      is meant, the queue discards nothing. */
  lemma DiscardsWithoutWaiting(start: nat)
    requires 100 < start <= UINT64 - UINT32
    ensures var r := Run(New(5, 100, ROOM), Scenario(start));
            && r.discards == [4] && |r.seen| == 5
            && r.seen[3].packet == r.seen[4].packet == Bulk(start + 98) && r.seen[3].time == r.seen[4].time == 100
    ensures Run(New(5, 100, ROOM), Scenario(0)).discards == []
  {
    hide Run, Happen, Quiet, Long, Bulk;
    LongOrNot(start);
    var c := ScenarioQuiet(start);
    LoudTake(c, start, [98, 98, 98], 100, 3, 100);
    LongOrNot(0);
    var d := ScenarioQuiet(0);
    QuietTake(d, 0, [98, 98, 98], 198, 3, 100);
    assert [98, 98, 98][1..] == [98, 98];
    NoDiscards(Happen(d, Take(100)), 0, [98, 98], 0, 4);
  }

  lemma NoDiscards(c: Codel, start: nat, ts: seq<nat>, firstAbove: nat, looks: nat)
    requires Quiet(c, start, ts, firstAbove, looks)
    ensures c.discards == []
  {}
}
