/** `CODELPacketQueue::dequeue` against the `dequeue` of RFC 8289, section 5.5. There the packet popped last is returned and those
    popped before it are dropped; in the code an inner variable shadows the outer one, so the first is returned and those behind
    it are dropped. */
module CodelStandard {
  import opened PacketQueues
  import opened Widths
  import opened CodelQueue
  import opened CodelClocks

  /** The drop loop of the RFC: the packet popped before goes, and the next one is popped. */
  function RfcLoop(c: Codel, now: nat): Codel
    requires c.seen != []
    decreases |c.queue|
  {
    if now < c.dropNext || !c.dropping || c.queue == [] then c
    else
      var (d, ok) := DoDequeue(Discard(c).(count := c.count + 1), now);
      if !ok then d.(dropping := false) else RfcLoop(d.(dropNext := ControlLaw(d.dropNext, d.interval, d.count)), now)
  }

  /** The first drop of a dropping state in the RFC. */
  function RfcEnter(c: Codel, now: nat): Codel
    requires c.seen != [] && c.queue != []
  {
    var d := DoDequeue(Discard(c), now).0;
    var delta := (d.count - d.lastCount) % UINT32;
    var count := if delta > 1 && (now - d.dropNext) % UINT64 < (16 * d.interval) % UINT32 then delta else 1;
    d.(dropping := true, count := count, lastCount := count, dropNext := ControlLaw(now, d.interval, count))
  }

  /** `dequeue` of the RFC. It returns the packet it popped last. */
  function RfcDequeue(c: Codel, now: nat): Codel
    requires c.queue != []
  {
    var (d, ok) := DoDequeue(c, now);
    if d.dropping then
      if ok then RfcLoop(d, now) else d.(dropping := false)
    else if ok then
      assert d.queue != [];
      RfcEnter(d, now)
    else d
  }

  /** Everything but the record of which packets were dropped. */
  function State(c: Codel): Codel {
    c.(discards := [])
  }

  lemma SamePop(c: Codel, b: Codel, now: nat)
    requires State(c) == State(b) && c.queue != []
    ensures var (d, ok) := DoDequeue(c, now);
            var (e, also) := DoDequeue(b, now);
            && State(d) == State(e) && ok == also && (ok ==> d.queue != [])
            && d.discards == c.discards && e.discards == b.discards
            && |d.seen| == |c.seen| + 1 && |d.queue| == |c.queue| - 1
  {
    hide Sojourn;
  }

  /** The positions dropped by a call or a loop that began at position `from` and leaves `r`. */
  predicate Dropped(before: seq<nat>, r: Codel, from: nat, queued: nat) {
    |r.queue| <= queued && r.discards == before + Range(from, queued - |r.queue|)
  }

  /** One turn of that loop. */
  function RfcTurn(c: Codel, now: nat): Codel
    requires c.seen != [] && c.queue != []
  {
    var (d, ok) := DoDequeue(Discard(c).(count := c.count + 1), now);
    if !ok then d.(dropping := false) else d.(dropNext := ControlLaw(d.dropNext, d.interval, d.count))
  }

  lemma RfcLoopTurn(c: Codel, now: nat)
    requires c.seen != []
    ensures if now < c.dropNext || !c.dropping || c.queue == [] then RfcLoop(c, now) == c
            else RfcTurn(c, now).seen != [] && RfcLoop(c, now) == RfcLoop(RfcTurn(c, now), now)
  {
    if c.queue != [] {
      SamePop(Discard(c).(count := c.count + 1), Discard(c).(count := c.count + 1), now);
    }
    hide DoDequeue, ControlLaw;
    if now >= c.dropNext && c.dropping && c.queue != [] && !RfcTurn(c, now).dropping {
      assert RfcLoop(RfcTurn(c, now), now) == RfcTurn(c, now);
    }
  }

  lemma TurnAgainstRfc(c: Codel, b: Codel, now: nat)
    requires State(c) == State(b) && c.seen != [] && c.queue != []
    ensures var f, g := DropTurn(c, now), RfcTurn(b, now);
            && State(f) == State(g) && g.discards == b.discards + [|c.seen| - 1]
            && |f.seen| == |c.seen| + 1 && |f.queue| == |c.queue| - 1
  {
    SamePop(c, b, now);
    PopWith(b, Discard(b).(count := b.count + 1), now);
    hide DoDequeue, ControlLaw;
  }

  lemma {:induction false} LoopAgainstRfc(c: Codel, b: Codel, now: nat)
    requires State(c) == State(b) && c.seen != []
    ensures var r, s := DropLoop(c, now), RfcLoop(b, now);
            && State(r) == State(s) && Dropped(b.discards, s, |c.seen| - 1, |c.queue|)
            && (|r.queue| < |c.queue| <==> now >= c.dropNext && c.dropping && c.queue != [])
    decreases |c.queue|
  {
    hide DropTurn, RfcTurn, DropLoop, RfcLoop;
    RfcLoopTurn(b, now);
    if now < c.dropNext || !c.dropping || c.queue == [] {
      LoopStops(c, now);
      assert b.discards + Range(|c.seen| - 1, 0) == b.discards;
    } else {
      TurnAgainstRfc(c, b, now);
      DropLoopTurn(c, now);
      LoopAgainstRfc(DropTurn(c, now), RfcTurn(b, now), now);
      JoinDropped(b.discards, RfcLoop(RfcTurn(b, now), now), |c.seen| - 1, |c.queue|);
    }
  }

  lemma LoopStops(c: Codel, now: nat)
    requires now < c.dropNext || !c.dropping || c.queue == []
    ensures DropLoop(c, now) == c
  {}

  /** Counters and records do not matter to `dodequeue`. */
  lemma PopWith(b: Codel, b1: Codel, now: nat)
    requires b.queue != [] && b1 == b.(discards := b1.discards, count := b1.count)
    ensures var (d, ok) := DoDequeue(b, now);
            var (e, also) := DoDequeue(b1, now);
            e == d.(discards := b1.discards, count := b1.count) && ok == also
  {
    hide Sojourn;
  }

  lemma JoinDropped(before: seq<nat>, r: Codel, from: nat, queued: nat)
    requires queued > 0 && Dropped(before + [from], r, from + 1, queued - 1)
    ensures Dropped(before, r, from, queued)
  {
    RangeHead(from, queued - |r.queue|);
    assert before + ([from] + Range(from + 1, queued - 1 - |r.queue|)) == before + [from] + Range(from + 1, queued - 1 - |r.queue|);
  }

  lemma EnterAgainstRfc(c: Codel, b: Codel, now: nat)
    requires State(c) == State(b) && c.seen != [] && c.queue != []
    ensures var r, s := EnterDropping(c, now), RfcEnter(b, now);
            State(r) == State(s) && s.discards == b.discards + [|c.seen| - 1] && |r.queue| == |c.queue| - 1
  {
    SamePop(c, b, now);
    PopWith(b, Discard(b), now);
    hide DoDequeue, ControlLaw;
  }

  /** When a call drops anything: a guard on the state before it. */
  predicate Drops(c: Codel, now: nat)
    requires c.queue != []
  {
    DoDequeue(c, now).1 && (c.dropping ==> now >= c.dropNext)
  }

  lemma CallAgainstRfc(c: Codel, b: Codel, now: nat)
    requires State(c) == State(b) && c.queue != []
    ensures var r, s := Dequeue(c, now), RfcDequeue(b, now);
            && State(r) == State(s) && Dropped(b.discards, s, |c.seen|, |c.queue| - 1)
            && (|r.queue| < |c.queue| - 1 <==> Drops(c, now))
  {
    SamePop(c, b, now);
    PopFields(c, now);
    var (d, ok) := DoDequeue(c, now);
    var e := DoDequeue(b, now).0;
    hide DoDequeue, ControlLaw, DropLoop, RfcLoop, EnterDropping, RfcEnter;
    assert Range(|c.seen|, 0) == [] && b.discards + [] == b.discards;
    if ok && d.dropping {
      LoopAgainstRfc(d, e, now);
    } else if ok {
      EnterAgainstRfc(d, e, now);
      RangeHead(|c.seen|, 1);
      assert Range(|c.seen| + 1, 0) == [];
    }
  }

  lemma PopFields(c: Codel, now: nat)
    requires c.queue != []
    ensures var d := DoDequeue(c, now).0; d.dropping == c.dropping && d.dropNext == c.dropNext && d.discards == c.discards
  {
    hide Sojourn;
  }

  /** One call of the code against one call of the RFC: the same state, but the packets that go are one further back. So they return and
      drop the same packets if and only if the call drops none, which the state before it tells. */
  lemma DequeueAgainstRfc(c: Codel, now: nat)
    requires Valid(c) && c.queue != [] && NotBefore(c, now)
    ensures var r, s := Dequeue(c, now), RfcDequeue(c, now);
            var n, dropped := |c.seen|, |c.queue| - |r.queue| - 1;
            && |r.queue| < |c.queue| && State(r) == State(s) && |r.seen| == n + 1 + dropped
            && r.discards == c.discards + Range(n + 1, dropped)
            && s.discards == c.discards + Range(n, dropped)
            && (r.discards == s.discards <==> !Drops(c, now))
  {
    hide Dequeue, RfcDequeue, Valid, Drops;
    DequeueSafe(c, now);
    CallAgainstRfc(c, c, now);
    ShiftedDiffer(c.discards, |c.seen|, |c.queue| - |Dequeue(c, now).queue| - 1);
  }

  lemma ShiftedDiffer(before: seq<nat>, n: nat, dropped: nat)
    ensures before + Range(n + 1, dropped) == before + Range(n, dropped) <==> dropped == 0
  {
    if dropped > 0 {
      assert (before + Range(n + 1, dropped))[|before|] == n + 1;
      assert (before + Range(n, dropped))[|before|] == n;
    }
  }

  /** A packet's own look reported a persistent queue. */
  predicate OwnReport(c: Codel, d: nat) {
    Persisted(c.target, c.interval, c.seen, d)
  }

  /** The RFC drops only packets whose own look reported. So does the code, but for the last packet of a call: that goes on the
      report before it whatever its own said. */
  lemma DropsReported(c: Codel, now: nat)
    requires Valid(c) && c.queue != [] && NotBefore(c, now)
    ensures var s := RfcDequeue(c, now);
            forall d: nat | |c.seen| <= d < |s.seen| - 1 :: d in s.discards && OwnReport(s, d)
    ensures var r := Dequeue(c, now);
            forall d: nat | |c.seen| < d < |r.seen| - 1 :: d in r.discards && OwnReport(r, d)
  {
    hide Dequeue, RfcDequeue, Valid, Persisted;
    DequeueSafe(c, now);
    DequeueAgainstRfc(c, now);
    var r, s := Dequeue(c, now), RfcDequeue(c, now);
    var n, dropped := |c.seen|, |c.queue| - |r.queue| - 1;
    WithRange(c.discards, n + 1, dropped);
    WithRange(c.discards, n, dropped);
    CoveredDiscards(r);
    forall d: nat | n <= d < |r.seen| - 1 ensures d in s.discards && OwnReport(s, d) && OwnReport(r, d) {
      assert d + 1 in r.discards;
    }
  }

  // Whole runs

  function RfcHappen(c: Codel, e: Event): Codel {
    if e.Take? && c.queue != [] then RfcDequeue(c, e.now) else Happen(c, e)
  }

  function RfcRun(c: Codel, es: seq<Event>): Codel
    decreases |es|
  {
    if es == [] then c else RfcRun(RfcHappen(c, es[0]), es[1..])
  }

  /** Each of `a` is one more than its partner in `b`. */
  predicate Behind(a: seq<nat>, b: seq<nat>) {
    |a| == |b| && forall i | 0 <= i < |a| :: a[i] == b[i] + 1
  }

  lemma HappenAgainstRfc(c: Codel, b: Codel, e: Event)
    requires Valid(c) && State(c) == State(b) && Behind(c.discards, b.discards) && (e.Take? ==> NotBefore(c, e.now))
    ensures State(Happen(c, e)) == State(RfcHappen(b, e)) && Behind(Happen(c, e).discards, RfcHappen(b, e).discards)
  {
    if e.Take? && c.queue != [] {
      hide Dequeue, RfcDequeue, Valid, Drops;
      DequeueSafe(c, e.now);
      CallAgainstRfc(c, b, e.now);
    } else {
      hide Valid, Good;
    }
  }

  lemma {:induction false} StillAgainstRfc(c: Codel, b: Codel, es: seq<Event>)
    requires Valid(c) && Clocked(c, es) && State(c) == State(b) && Behind(c.discards, b.discards)
    ensures State(Run(c, es)) == State(RfcRun(b, es)) && Behind(Run(c, es).discards, RfcRun(b, es).discards)
    decreases |es|
  {
    if es != [] {
      ClockedRest(c, es);
      HappenSafe(c, es[0]);
      HappenAgainstRfc(c, b, es[0]);
      hide Valid, Happen, RfcHappen, Clocked, Behind;
      StillAgainstRfc(Happen(c, es[0]), RfcHappen(b, es[0]), es[1..]);
    }
  }

  /** Over every run of a new queue the code and the RFC are in the same state, and the packets the code drops are those right behind
      the packets the RFC drops, whose own looks all reported a persistent queue. So they agree if and only if nothing was
      dropped at all. */
  lemma RunAgainstRfc(target: nat, interval: nat, limits: Discipline, es: seq<Event>)
    requires interval > 0 && limits.DropTail? && Clocked(New(target, interval, limits), es)
    ensures var r, s := Run(New(target, interval, limits), es), RfcRun(New(target, interval, limits), es);
            && State(r) == State(s) && Behind(r.discards, s.discards)
            && (forall d | d in s.discards :: OwnReport(s, d))
            && (r.discards == s.discards <==> r.discards == [])
  {
    hide Run, RfcRun, Clocked, Persisted;
    var c := New(target, interval, limits);
    assert Valid(c);
    StillAgainstRfc(c, c, es);
    RunSafe(c, es);
    hide Valid;
    var r, s := Run(c, es), RfcRun(c, es);
    CoveredDiscards(r);
    forall d | d in s.discards ensures OwnReport(s, d) {
      var i :| 0 <= i < |s.discards| && s.discards[i] == d;
      assert r.discards[i] == d + 1 && r.discards[i] in r.discards;
    }
    if r.discards != [] {
      assert r.discards[0] == s.discards[0] + 1;
    }
  }

  // What that means for a packet

  /** Three packets when the queue starts, one taken after five milliseconds; two more at 103, the rest taken at 104 and 105. */
  function OneClock(): seq<Event> {
    [Put(Bulk(0)), Put(Bulk(0)), Put(Bulk(0)), Take(5), Put(Bulk(103)), Put(Bulk(103)), Take(104), Take(105)]
  }

  lemma OneClockQuiet() returns (c: Codel)
    ensures Quiet(c, 0, [0, 103, 103], 105, 2) && Run(New(5, 100, ROOM), OneClock()) == Happen(c, Take(105))
  {
    hide Happen, Bulk, Quiet, Long, Run;
    var es, c0 := OneClock(), New(5, 100, ROOM);
    OneClockLong();
    NewQuiet(0);
    var c3 := ThreePuts(c0, 0, es);
    QuietTake(c3, 0, [0, 0, 0], 0, 0, 5);
    assert [0, 0, 0][1..] == [0, 0];
    var c4 := Happen(c3, es[3]);
    RunFour(c0, Happen(c0, es[0]), Happen(Happen(c0, es[0]), es[1]), c3, c4, es);
    c := OneClockRest(c4, es[4..]);
  }

  lemma OneClockLong()
    ensures Long(0, 0, 5) && Long(0, 0, 104) && Long(0, 0, 105)
  {}

  lemma OneClockRest(c4: Codel, es: seq<Event>) returns (c: Codel)
    requires Quiet(c4, 0, [0, 0], 105, 1) && es == [Put(Bulk(103)), Put(Bulk(103)), Take(104), Take(105)]
    ensures Quiet(c, 0, [0, 103, 103], 105, 2) && Run(c4, es) == Happen(c, Take(105))
  {
    hide Happen, Bulk, Quiet, Long;
    OneClockLong();
    QuietPut(c4, 0, [0, 0], 105, 1, 103);
    var c5 := Happen(c4, es[0]);
    assert [0, 0] + [103] == [0, 0, 103];
    QuietPut(c5, 0, [0, 0, 103], 105, 1, 103);
    var c6 := Happen(c5, es[1]);
    assert [0, 0, 103] + [103] == [0, 0, 103, 103];
    QuietTake(c6, 0, [0, 0, 103, 103], 105, 1, 104);
    assert [0, 0, 103, 103][1..] == [0, 103, 103];
    c := Happen(c6, es[2]);
    RunFour(c4, c5, c6, c, Happen(c, es[3]), es);
    assert es[4..] == [];
  }

  /** With stamps of the clock the queue reads: at 105 the code returns the packet that waited 105 milliseconds and drops the one
      behind it, which waited two under a target of five. The RFC does the reverse. */
  lemma ShadowingDropsFresh() returns (r: Codel, s: Codel)
    ensures r == Run(New(5, 100, ROOM), OneClock()) && s == RfcRun(New(5, 100, ROOM), OneClock())
    ensures |r.seen| == 4 && r.discards == [3] && r.seen[3].packet == Bulk(103) && r.seen[3].time == 105
    ensures |s.seen| == 4 && s.discards == [2] && s.seen[2].packet == Bulk(0) && s.seen[2].time == 105
  {
    hide Run, RfcRun, Happen, Quiet, Long, Bulk, Persisted, OneClock;
    r, s := Run(New(5, 100, ROOM), OneClock()), RfcRun(New(5, 100, ROOM), OneClock());
    OneClockLong();
    var c := OneClockQuiet();
    LoudTake(c, 0, [0, 103, 103], 105, 2, 105);
    OneClockClocked();
    RunAgainstRfc(5, 100, ROOM, OneClock());
    SameSeen(r, s);
  }

  lemma SameSeen(r: Codel, s: Codel)
    requires State(r) == State(s)
    ensures r.seen == s.seen
  {}

  lemma OneClockClocked()
    ensures Clocked(New(5, 100, ROOM), OneClock())
  {}

  /** With the two clocks of the link even the `dequeue` of the RFC drops a packet that waited two milliseconds, while with one
      clock it drops nothing in that run. */
  lemma ClocksDropFresh(start: nat) returns (s: Codel)
    requires 100 < start <= UINT64 - UINT32
    ensures s == RfcRun(New(5, 100, ROOM), Scenario(start))
    ensures |s.seen| == 5 && s.discards == [3] && s.seen[3].packet == Bulk(start + 98) && s.seen[3].time == 100
    ensures RfcRun(New(5, 100, ROOM), Scenario(0)).discards == []
  {
    hide Run, RfcRun, Bulk, Persisted, Scenario;
    s := RfcRun(New(5, 100, ROOM), Scenario(start));
    DiscardsWithoutWaiting(start);
    ScenarioClocked(start);
    ScenarioClocked(0);
    RunAgainstRfc(5, 100, ROOM, Scenario(start));
    RunAgainstRfc(5, 100, ROOM, Scenario(0));
    SameSeen(Run(New(5, 100, ROOM), Scenario(start)), s);
  }

  lemma ScenarioClocked(start: nat)
    ensures Clocked(New(5, 100, ROOM), Scenario(start))
  {
    hide Bulk;
  }
}
