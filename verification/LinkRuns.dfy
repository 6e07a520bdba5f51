/** Whole runs of the link emulator: arrivals and waits at any times. */
module LinkRuns {
  import opened Sequences
  import opened Text
  import opened PacketQueues
  import opened LinkModel

  /** The link after a packet was offered to its queue; `None` stands for a failed assert of the queue or of
      the two size asserts after `enqueue`. */
  function Joined(r: Link, p: Packet): Option<Link> {
    var q := Enqueue(r.discipline, r.queue, p);
    if q.None? || |q.value| > |r.queue| + 1 || Bytes(q.value) > Bytes(r.queue) + |p.contents| then None
    else Some(r.(queue := q.value,
                 droppedPackets := r.droppedPackets + |r.queue| + 1 - |q.value|,
                 droppedBytes := r.droppedBytes + Bytes(r.queue) + |p.contents| - Bytes(q.value)))
  }

  /** `read_packet`; `None` stands for the exception and for a failed assert. */
  function ReadPacket(l: Link, now: nat, contents: string): Option<Link>
    requires Located(l)
  {
    if |contents| > PACKET_SIZE then None else Joined(Rationalize(l, now), Packet(contents, now))
  }

  datatype Event = Arrive(now: nat, contents: string) | Wait(now: nat)

  function Happen(l: Link, e: Event): Option<Link>
    requires Located(l)
  {
    match e
    case Arrive(now, contents) => ReadPacket(l, now, contents)
    case Wait(now) => Some(Rationalize(l, now))
  }

  lemma HappenLocated(l: Link, e: Event)
    requires Located(l)
    ensures Happen(l, e).Some? ==> Located(Happen(l, e).value)
  {
    hide Rationalize, Enqueue;
    RationalizeLocated(l, e.now);
  }

  function Run(l: Link, es: seq<Event>): Option<Link>
    requires Located(l)
    decreases |es|
  {
    if es == [] then Some(l)
    else
      HappenLocated(l, es[0]);
      var r := Happen(l, es[0]);
      if r.None? then None else Run(r.value, es[1..])
  }

  lemma RunUnfolds(l: Link, es: seq<Event>)
    requires Located(l) && es != []
    ensures Happen(l, es[0]).Some? ==> Located(Happen(l, es[0]).value)
    ensures Run(l, es) == if Happen(l, es[0]).None? then None else Run(Happen(l, es[0]).value, es[1..])
  {
    hide Happen;
    HappenLocated(l, es[0]);
  }

  predicate NonEmpty(es: seq<Event>) {
    forall e | e in es && e.Arrive? :: e.contents != ""
  }

  function Arrivals(es: seq<Event>): seq<Packet> {
    if es == [] then []
    else (if es[0].Arrive? then [Packet(es[0].contents, es[0].now)] else []) + Arrivals(es[1..])
  }

  /** What one arrival does to the line: the packet joins it at the end, or is turned away, or the head
      of the queue makes room. */
  lemma ReadPacketKeeps(l: Link, now: nat, contents: string)
    requires Valid(l) && contents != "" && ReadPacket(l, now, contents).Some?
    ensures var r := ReadPacket(l, now, contents).value;
            var p := Packet(contents, now);
            && Valid(r) && r.discipline == l.discipline
            && |Line(r)| + r.droppedPackets == |Line(l)| + l.droppedPackets + 1
            && Bytes(Line(r)) + r.droppedBytes == Bytes(Line(l)) + l.droppedBytes + |contents|
            && (Line(r) == Line(l) + [p] ||
                (l.discipline.DropTail? && Line(r) == Line(l)) ||
                (l.discipline.DropHead? && exists i :: 0 <= i < |Line(l) + [p]| && Line(r) == (Line(l) + [p])[..i] + (Line(l) + [p])[i + 1..]))
  {
    hide Rationalize, Enqueue;
    var t := Rationalize(l, now);
    RationalizeKeeps(l, now);
    EnqueueKeeps(t.discipline, t.queue, Packet(contents, now));
    QueueChanges(t, ReadPacket(l, now, contents).value.queue, Packet(contents, now));
    EnqueuedValid(t, ReadPacket(l, now, contents).value, Packet(contents, now));
  }

  lemma EnqueuedValid(t: Link, r: Link, p: Packet)
    requires Valid(t) && !Due(t, p.arrival) && Sized(p)
    requires r == t.(queue := r.queue, droppedPackets := r.droppedPackets, droppedBytes := r.droppedBytes)
    requires Good(t.discipline, r.queue) && (r.queue == t.queue + [p] || r.queue == t.queue || r.queue == (t.queue + [p])[1..])
    ensures Valid(r)
  {
    hide Bytes;
    forall x | x in r.queue ensures x == p || x in t.queue {}
    if NextTime(t).Some? {
      forall x | x in Inside(r) ensures x.arrival <= NextTime(r).value {
        assert x in r.queue || x in Inside(t);
      }
    }
  }

  lemma QueueChanges(t: Link, q: seq<Packet>, p: Packet)
    requires q == t.queue + [p] || q == t.queue || q == (t.queue + [p])[1..]
    ensures var r := t.(queue := q);
            && |Line(r)| - |q| == |Line(t)| - |t.queue|
            && Bytes(Line(r)) - Bytes(q) == Bytes(Line(t)) - Bytes(t.queue)
            && (q == t.queue + [p] ==> Line(r) == Line(t) + [p])
            && (q == t.queue ==> Line(r) == Line(t))
            && (q == (t.queue + [p])[1..] ==>
                  exists i :: 0 <= i < |Line(t) + [p]| && Line(r) == (Line(t) + [p])[..i] + (Line(t) + [p])[i + 1..])
  {
    hide Bytes;
    var before := PacketsOf(t.departed) + InTransit(t);
    var r := t.(queue := q);
    assert Line(t) == before + t.queue && Line(r) == before + q;
    BytesAppend(before, t.queue);
    BytesAppend(before, q);
    assert Line(t) + [p] == before + (t.queue + [p]);
    if q == (t.queue + [p])[1..] {
      HeadLeftOut(before, t.queue + [p]);
    }
  }

  lemma HeadLeftOut(before: seq<Packet>, q: seq<Packet>)
    requires q != []
    ensures exists i :: 0 <= i < |before + q| && before + q[1..] == (before + q)[..i] + (before + q)[i + 1..]
  {
    var i := |before|;
    assert (before + q)[..i] + (before + q)[i + 1..] == before + q[1..];
  }

  // Order and conservation over whole runs

  /** `a` can be had from `b` by leaving elements out. */
  predicate Sub(a: seq<Packet>, b: seq<Packet>)
    decreases |b|
  {
    if b == [] then a == []
    else
      || Sub(a, b[..|b| - 1])
      || (a != [] && a[|a| - 1] == b[|b| - 1] && Sub(a[..|a| - 1], b[..|b| - 1]))
  }

  lemma SubSnoc(a: seq<Packet>, b: seq<Packet>, p: Packet)
    requires Sub(a, b)
    ensures Sub(a + [p], b + [p]) && Sub(a, b + [p])
  {
    assert (b + [p])[..|b|] == b && (a + [p])[..|a|] == a;
  }

  lemma {:induction false} SubSelf(a: seq<Packet>)
    ensures Sub(a, a)
  {
    if a != [] {
      SubSelf(a[..|a| - 1]);
    }
  }

  lemma {:induction false} SubLess(a: seq<Packet>, b: seq<Packet>, i: nat)
    requires Sub(a, b) && i < |a|
    ensures Sub(a[..i] + a[i + 1..], b)
    decreases |b|
  {
    var less := a[..i] + a[i + 1..];
    var c := b[..|b| - 1];
    if Sub(a, c) {
      SubLess(a, c, i);
    } else {
      var front := a[..|a| - 1];
      if i == |a| - 1 {
        assert less == front;
      } else {
        SubLess(front, c, i);
        assert less[..|less| - 1] == front[..i] + front[i + 1..];
      }
    }
  }

  /** One event: nothing is reordered, lost without record, or invented. */
  lemma HappenKeeps(l: Link, e: Event, arrived: seq<Packet>)
    requires Valid(l) && (e.Arrive? ==> e.contents != "") && Happen(l, e).Some? && Sub(Line(l), arrived)
    ensures var r := Happen(l, e).value;
            var news := Arrivals([e]);
            && Valid(r) && r.discipline == l.discipline
            && |Line(r)| + r.droppedPackets == |Line(l)| + l.droppedPackets + |news|
            && Bytes(Line(r)) + r.droppedBytes == Bytes(Line(l)) + l.droppedBytes + Bytes(news)
            && Sub(Line(r), arrived + news)
            && (l.discipline.Infinite? ==> Line(r) == Line(l) + news)
  {
    assert Located(l);
    hide ReadPacket, Rationalize, Line, Valid;
    if e.Wait? {
      RationalizeKeeps(l, e.now);
      assert arrived + [] == arrived && Line(l) + [] == Line(l);
    } else {
      var p := Packet(e.contents, e.now);
      ReadPacketKeeps(l, e.now, e.contents);
      assert Arrivals([e]) == [p];
      SubSnoc(Line(l), arrived, p);
      var r := Happen(l, e).value;
      if Line(r) != Line(l) + [p] && Line(r) != Line(l) {
        var i :| 0 <= i < |Line(l) + [p]| && Line(r) == (Line(l) + [p])[..i] + (Line(l) + [p])[i + 1..];
        SubLess(Line(l) + [p], arrived + [p], i);
      }
    }
  }

  /** Over every run and with every clock-free queue: what left, what is in transit and what is queued are
      arrivals in their order; arrivals are these plus the recorded drops, in packets and in bytes. */
  lemma {:induction false} RunConserves(l: Link, es: seq<Event>, arrived: seq<Packet>)
    requires Valid(l) && NonEmpty(es) && Run(l, es).Some? && Sub(Line(l), arrived)
    ensures var r := Run(l, es).value;
            && Valid(r)
            && |Line(r)| + r.droppedPackets == |Line(l)| + l.droppedPackets + |Arrivals(es)|
            && Bytes(Line(r)) + r.droppedBytes == Bytes(Line(l)) + l.droppedBytes + Bytes(Arrivals(es))
            && Sub(Line(r), arrived + Arrivals(es))
            && (l.discipline.Infinite? ==> Line(r) == Line(l) + Arrivals(es))
    decreases |es|
  {
    assert Located(l);
    if es == [] {
      assert arrived + [] == arrived && Line(l) + [] == Line(l);
    } else {
      hide Happen, Line, Valid, Sub, Run, Bytes;
      var e, rest := es[0], es[1..];
      assert e in es;
      RunUnfolds(l, es);
      HappenKeeps(l, e, arrived);
      var news := Arrivals([e]);
      ArrivalsUnfold(es);
      assert NonEmpty(rest) by { assert forall x | x in rest :: x in es; }
      RunConserves(Happen(l, e).value, rest, arrived + news);
      Assoc(arrived, news, Arrivals(rest));
      Assoc(Line(l), news, Arrivals(rest));
    }
  }

  lemma ArrivalsUnfold(es: seq<Event>)
    requires es != []
    ensures Arrivals(es) == Arrivals([es[0]]) + Arrivals(es[1..])
    ensures |Arrivals(es)| == |Arrivals([es[0]])| + |Arrivals(es[1..])|
    ensures Bytes(Arrivals(es)) == Bytes(Arrivals([es[0]])) + Bytes(Arrivals(es[1..]))
  {
    BytesAppend(Arrivals([es[0]]), Arrivals(es[1..]));
  }

  /** The packet of an arrival if the limits leave room for it at its time. */
  function TakenAlone(l: Link, e: Event): seq<Packet>
    requires Located(l)
  {
    if e.Arrive? && Good(l.discipline, Rationalize(l, e.now).queue + [Packet(e.contents, e.now)])
    then [Packet(e.contents, e.now)] else []
  }

  /** A new link: nothing inside, no opportunity used. */
  lemma NewLink(schedule: seq<nat>, repeat: bool, discipline: Discipline, base: nat)
    requires ValidSchedule(schedule)
    ensures var l := New(schedule, repeat, discipline, base); Valid(l) && Line(l) == [] && Backlog(l) == 0 && UsedUp(l, base, 0)
  {
    FirstRound(0, |schedule|);
  }

  /** Along every run the opportunities are used in their order, none twice and none left out, and after
      the last event none is due. */
  lemma {:induction false} RunUses(l: Link, base: nat, k: nat, es: seq<Event>) returns (m: nat)
    requires Valid(l) && UsedUp(l, base, k) && NonEmpty(es) && Run(l, es).Some?
    ensures var r := Run(l, es).value;
            && Located(r) && k <= m && UsedUp(r, base, m) && r.schedule == l.schedule
            && (es != [] ==> !Due(r, es[|es| - 1].now))
    decreases |es|
  {
    m := k;
    if es != [] {
      hide Happen, Valid, Run, UsedUp, NonEmpty, Due;
      RunUnfolds(l, es);
      RestOfRun(es);
      var n := HappenUses(l, base, k, es[0]);
      HappenValid(l, es[0]);
      var t := Happen(l, es[0]).value;
      m := RunUses(t, base, n, es[1..]);
      if es[1..] == [] {
        RunNothing(t);
      }
    }
  }

  /** The first event and the rest of a run. */
  lemma RestOfRun(es: seq<Event>)
    requires NonEmpty(es) && es != []
    ensures (es[0].Arrive? ==> es[0].contents != "") && NonEmpty(es[1..])
    ensures if es[1..] == [] then es[|es| - 1] == es[0] else es[1..][|es[1..]| - 1] == es[|es| - 1]
  {
    assert es[0] in es;
    forall e | e in es[1..] ensures e in es {}
  }

  lemma HappenValid(l: Link, e: Event)
    requires Valid(l) && (e.Arrive? ==> e.contents != "") && Happen(l, e).Some?
    ensures Valid(Happen(l, e).value)
  {
    assert Located(l);
    hide Happen, Valid, Line, Sub;
    SubSelf(Line(l));
    HappenKeeps(l, e, Line(l));
  }

  lemma RunNothing(l: Link)
    requires Located(l)
    ensures Run(l, []) == Some(l)
  {}

  lemma HappenUses(l: Link, base: nat, k: nat, e: Event) returns (m: nat)
    requires Valid(l) && UsedUp(l, base, k) && Happen(l, e).Some?
    ensures var r := Happen(l, e).value;
            Located(r) && k <= m && UsedUp(r, base, m) && r.schedule == l.schedule && !Due(r, e.now)
  {
    hide Rationalize, Enqueue, Slot, Round;
    m := RationalizeExact(l, base, k, e.now);
    RationalizeKeeps(l, e.now);
  }

  /** A trace without repetition ends with its last opportunity, a repeating one never. */
  lemma {:induction false} RationalizeFinishes(l: Link, now: nat)
    requires Located(l)
    ensures var r := Rationalize(l, now);
            && (r.finished <==> l.finished || (!l.repeat && now >= l.base + Last(l.schedule)))
            && r.repeat == l.repeat && r.schedule == l.schedule && (!l.repeat ==> r.base == l.base)
    decreases TimeLeft(l, now), |l.schedule| - l.next
  {
    if Due(l, now) {
      hide Serve, Slot;
      OpportunityProgress(l, now);
      ServedSchedule(UseOpportunity(l), PACKET_SIZE, NextTime(l).value);
      FirstRound(l.next, |l.schedule|);
      hide Rationalize;
      RationalizeStep(l, now);
      RationalizeFinishes(Opportunity(l), now);
    }
  }

  lemma HappenFinishes(l: Link, e: Event)
    requires Located(l) && Happen(l, e).Some?
    ensures var r := Happen(l, e).value;
            && (r.finished <==> l.finished || (!l.repeat && e.now >= l.base + Last(l.schedule)))
            && r.repeat == l.repeat && r.schedule == l.schedule && (!l.repeat ==> r.base == l.base)
  {
    hide Rationalize, Enqueue;
    RationalizeFinishes(l, e.now);
  }

  /** Exactly when a run leaves the link finished: its trace is not repeated and some event came at or after the last opportunity. */
  lemma {:induction false} RunFinishes(l: Link, es: seq<Event>)
    requires Located(l) && Run(l, es).Some?
    ensures Run(l, es).value.finished <==>
            l.finished || (!l.repeat && exists i | 0 <= i < |es| :: es[i].now >= l.base + Last(l.schedule))
    decreases |es|
  {
    if es != [] {
      hide Happen, Run;
      RunUnfolds(l, es);
      HappenFinishes(l, es[0]);
      var t, rest := Happen(l, es[0]).value, es[1..];
      RunFinishes(t, rest);
      assert forall i | 0 <= i < |rest| :: rest[i] == es[i + 1];
      assert es[0].now >= l.base + Last(l.schedule) || forall i | 0 <= i < |es| && es[i].now >= l.base + Last(l.schedule) :: i > 0 && rest[i - 1] == es[i];
    } else {
      RunNothing(l);
    }
  }

  /** The arrivals a drop-tail queue takes. */
  function Accepted(l: Link, es: seq<Event>): seq<Packet>
    requires Located(l) && Run(l, es).Some?
    decreases |es|
  {
    if es == [] then []
    else
      RunUnfolds(l, es);
      TakenAlone(l, es[0]) + Accepted(Happen(l, es[0]).value, es[1..])
  }

  lemma HappenTail(l: Link, e: Event)
    requires Valid(l) && l.discipline.DropTail? && (e.Arrive? ==> e.contents != "") && Happen(l, e).Some?
    ensures var r := Happen(l, e).value;
            && Valid(r) && r.discipline == l.discipline
            && Line(r) == Line(l) + TakenAlone(l, e)
  {
    hide Rationalize, Line, Enqueue;
    var t := Rationalize(l, e.now);
    RationalizeKeeps(l, e.now);
    assert Line(l) + [] == Line(l);
    if e.Arrive? {
      var p := Packet(e.contents, e.now);
      ReadPacketKeeps(l, e.now, e.contents);
      DropTailTakes(t.discipline, t.queue, p);
      QueueChanges(t, Happen(l, e).value.queue, p);
      LineOfParts(Happen(l, e).value, t.(queue := Happen(l, e).value.queue));
    }
  }

  lemma LineOfParts(a: Link, b: Link)
    requires a.departed == b.departed && a.left == b.left && a.transit == b.transit && a.queue == b.queue
    ensures Line(a) == Line(b)
  {}

  /** With a drop-tail queue: output, packet in transit and queue are the accepted arrivals, in order. */
  lemma {:induction false} RunTail(l: Link, es: seq<Event>)
    requires Valid(l) && l.discipline.DropTail? && NonEmpty(es) && Run(l, es).Some?
    ensures Line(Run(l, es).value) == Line(l) + Accepted(l, es)
    decreases |es|
  {
    assert Located(l);
    if es == [] {
      assert Line(l) + [] == Line(l);
    } else {
      hide Happen, Line, Valid, Run, TakenAlone;
      var e, rest := es[0], es[1..];
      assert e in es;
      RunUnfolds(l, es);
      HappenTail(l, e);
      assert NonEmpty(rest) by { assert forall x | x in rest :: x in es; }
      RunTail(Happen(l, e).value, rest);
      Assoc(Line(l), TakenAlone(l, e), Accepted(Happen(l, e).value, rest));
    }
  }

  /** No assert fails and nothing throws while packets fit the link, except in a drop-head queue with a byte limit. */
  lemma {:induction false} RunSucceeds(l: Link, es: seq<Event>)
    requires Valid(l) && NonEmpty(es) && (l.discipline.DropHead? ==> l.discipline.byteLimit == 0)
    requires forall e | e in es && e.Arrive? :: |e.contents| <= PACKET_SIZE
    ensures Run(l, es).Some?
    decreases |es|
  {
    if es != [] {
      var e, rest := es[0], es[1..];
      assert e in es;
      HappenSucceeds(l, e);
      SubSelf(Line(l));
      HappenKeeps(l, e, Line(l));
      assert forall x | x in rest :: x in es;
      hide Happen, Valid, Line, Sub;
      RunSucceeds(Happen(l, e).value, rest);
    }
  }

  lemma HappenSucceeds(l: Link, e: Event)
    requires Valid(l) && (l.discipline.DropHead? ==> l.discipline.byteLimit == 0)
    requires e.Arrive? ==> |e.contents| <= PACKET_SIZE
    ensures Happen(l, e).Some?
  {
    hide Rationalize;
    RationalizeKeeps(l, e.now);
    var t := Rationalize(l, e.now);
    if e.Arrive? {
      var p := Packet(e.contents, e.now);
      if t.discipline.DropHead? {
        PacketLimitSurvives(t.discipline, t.queue, p);
      } else if t.discipline.DropTail? {
        DropTailTakes(t.discipline, t.queue, p);
      }
      EnqueueKeeps(t.discipline, t.queue, p);
    }
  }

  // Waking up in between changes nothing

  predicate InOrder(es: seq<Event>, end: nat) {
    (forall i, j | 0 <= i <= j < |es| :: es[i].now <= es[j].now) && forall i | 0 <= i < |es| :: es[i].now <= end
  }

  function ArrivalsOnly(es: seq<Event>): seq<Event> {
    if es == [] then [] else (if es[0].Arrive? then [es[0]] else []) + ArrivalsOnly(es[1..])
  }

  /** Calling `wait_time` in between, at any times, makes no difference: once brought up to the same time,
      the link is the same as if only the arrivals had happened. */
  lemma {:induction false} WaitsDoNotMatter(l: Link, k: Link, es: seq<Event>, start: nat, end: nat)
    requires Located(l) && Located(k) && InOrder(es, end) && start <= end && forall i | 0 <= i < |es| :: start <= es[i].now
    requires Rationalize(l, start) == Rationalize(k, start)
    ensures var a, b := Run(l, es), Run(k, ArrivalsOnly(es));
            && (a.Some? <==> b.Some?)
            && (a.Some? ==> Located(a.value) && Located(b.value) && Rationalize(a.value, end) == Rationalize(b.value, end))
    decreases |es|
  {
    hide Rationalize, Happen;
    if es == [] {
      LazyIsEager(l, start, end);
      LazyIsEager(k, start, end);
    } else {
      var e, rest := es[0], es[1..];
      assert InOrder(rest, end) && forall i | 0 <= i < |rest| :: rest[i] == es[i + 1];
      LazyIsEager(l, start, e.now);
      LazyIsEager(k, start, e.now);
      HappenLocated(l, e);
      HappenLocated(k, e);
      HappenSame(l, k, e);
      if e.Arrive? {
        assert ArrivalsOnly(es) == [e] + ArrivalsOnly(rest);
        assert ArrivalsOnly(es)[1..] == ArrivalsOnly(rest);
        if Happen(l, e).Some? {
          WaitsDoNotMatter(Happen(l, e).value, Happen(k, e).value, rest, e.now, end);
        }
      } else {
        assert ArrivalsOnly(es) == ArrivalsOnly(rest);
        WaitsDoNotMatter(Happen(l, e).value, k, rest, e.now, end);
      }
    }
  }

  lemma HappenSame(l: Link, k: Link, e: Event)
    requires Located(l) && Located(k) && Rationalize(l, e.now) == Rationalize(k, e.now)
    ensures Happen(l, e) == Happen(k, e) && (e.Wait? ==> Happen(l, e).Some?)
    ensures e.Wait? ==> var r := Happen(l, e).value; Located(r) && Rationalize(r, e.now) == Rationalize(k, e.now)
  {
    hide Rationalize, Enqueue;
    LazyIsEager(l, e.now, e.now);
  }
}
